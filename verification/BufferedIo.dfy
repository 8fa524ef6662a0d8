/** Buffered input and output over read and write calls that may transfer less than they
    are asked for.  Errors are not modelled. */
module BufferedIo {
  newtype byte = x: int | 0 <= x < 256

  /** An open file: its bytes and the place the next read starts. */
  class File {
    var data: seq<byte>
    var pos: nat

    ghost predicate Valid()
      reads this
    {
      pos <= |data|
    }

    ghost function Rest(): seq<byte>
      requires Valid()
      reads this
    {
      data[pos..]
    }

    constructor (data: seq<byte>)
      ensures this.data == data && pos == 0
    {
      this.data, pos := data, 0;
    }

    /** `read`: some bytes, at most what is asked for, and none only at the end. */
    method Read(buf: array<byte>) returns (n: nat)
      requires Valid() && buf.Length > 0
      modifies this`pos, buf
      ensures Valid() && n <= buf.Length && n <= |old(Rest())|
      ensures n == 0 <==> old(Rest()) == []
      ensures buf[..n] == old(Rest())[..n] && Rest() == old(Rest())[n..]
    {
      if pos == |data| {
        return 0;
      }
      n :| 0 < n <= buf.Length && n <= |data| - pos;
      var k := 0;
      while k < n
        invariant 0 <= k <= n && pos == old(pos) && buf[..k] == data[pos..pos + k]
      {
        buf[k] := data[pos + k];
        k := k + 1;
      }
      pos := pos + n;
    }

    /** `write` of bytes `from` up to `to` of a buffer: at least one of them is appended. */
    method Write(buf: array<byte>, from: nat, to: nat) returns (n: nat)
      requires from < to <= buf.Length
      modifies this`data
      ensures 0 < n <= to - from && data == old(data) + buf[from..from + n]
    {
      n :| 0 < n <= to - from;
      data := data + buf[from..from + n];
    }
  }

  /** BUFIO for reading. */
  class Input {
    const file: File
    const buf: array<byte>
    var next: nat
    var total: nat

    ghost predicate Valid()
      reads this, file
    {
      file.Valid() && buf.Length > 0 && total <= buf.Length
    }

    /** The bytes still to come: those in the buffer, then those in the file. */
    ghost function Rest(): seq<byte>
      requires Valid()
      reads this, file, buf
    {
      (if next < total then buf[next..total] else []) + file.Rest()
    }

    constructor (file: File, size: nat)
      requires file.Valid() && size > 0
      ensures Valid() && this.file == file && Rest() == file.Rest() && fresh(buf) && buf.Length == size
    {
      this.file, next, total := file, 0, 0;
      buf := new byte[size];
    }

    method ReadBuf() returns (ok: bool)
      requires Valid() && next >= total
      modifies this`next, this`total, file`pos, buf
      ensures Valid() && Rest() == old(Rest()) && file.data == old(file.data)
      ensures ok <==> old(Rest()) != []
      ensures ok <==> next < total
    {
      total := file.Read(buf);
      if total == 0 {
        return false;
      }
      next := 0;
      assert buf[..total] + file.Rest() == old(file.Rest());
      ok := true;
    }

    /** `Bgetc`: the next byte of the stream, or -1 at its end and only there. */
    method Getc() returns (c: int)
      requires Valid()
      modifies this`next, this`total, file`pos, buf
      ensures Valid() && file.data == old(file.data)
      ensures old(Rest()) == [] ==> c == -1 && Rest() == []
      ensures old(Rest()) != [] ==> c == old(Rest())[0] as int && Rest() == old(Rest())[1..]
    {
      if next >= total {
        var ok := ReadBuf();
        if !ok {
          return -1;
        }
      }
      c := buf[next] as int;
      next := next + 1;
    }
  }

  /** BUFIO for writing. */
  class Output {
    const file: File
    const buf: array<byte>
    var next: nat

    /** Between calls there is always room for one more byte. */
    ghost predicate Valid()
      reads this
    {
      next < buf.Length
    }

    /** All bytes put so far. */
    ghost function Put(): seq<byte>
      requires Valid()
      reads this, file, buf
    {
      file.data + buf[..next]
    }

    constructor (file: File, size: nat)
      requires size > 0
      ensures Valid() && this.file == file && Put() == file.data && fresh(buf) && buf.Length == size
    {
      this.file, next := file, 0;
      buf := new byte[size];
    }

    /** `writebuf`: the flush loop. */
    method WriteBuf()
      requires next <= buf.Length && buf.Length > 0
      modifies this`next, file`data
      ensures Valid() && next == 0 && file.data == old(file.data) + old(buf[..next])
    {
      var total := 0;
      while total < next
        invariant total <= next == old(next) && file.data == old(file.data) + buf[..total]
      {
        var n := file.Write(buf, total, next);
        assert buf[..total] + buf[total..total + n] == buf[..total + n];
        total := total + n;
      }
      next := 0;
    }

    /** `Bputc`: the low eight bits of `c` are appended to the stream. */
    method Putc(c: int)
      requires Valid()
      modifies this`next, file`data, buf
      ensures Valid() && Put() == old(Put()) + [(c % 256) as byte]
    {
      buf[next] := (c % 256) as byte;
      next := next + 1;
      assert buf[..next] == old(buf[..next]) + [(c % 256) as byte];
      if next >= buf.Length {
        WriteBuf();
      }
    }

    /** `Bclose` of an output: everything put is in the file. */
    method Close()
      requires Valid()
      modifies this`next, file`data
      ensures file.data == old(Put())
    {
      WriteBuf();
    }
  }

  /** The loop of `copy3`. */
  method Pump(stfrom: Input, stto: Output)
    requires stfrom.Valid() && stto.Valid() && stfrom.file != stto.file && stfrom.buf != stto.buf
    modifies stfrom`next, stfrom`total, stfrom.file`pos, stfrom.buf, stto`next, stto.file`data, stto.buf
    ensures stto.Valid() && stto.Put() == old(stto.Put()) + old(stfrom.Rest()) && stfrom.file.data == old(stfrom.file.data)
  {
    ghost var done, rest := stto.Put(), stfrom.Rest();
    ghost var i := 0;
    while true
      invariant stfrom.Valid() && stto.Valid() && stfrom.file.data == old(stfrom.file.data) && i <= |rest|
      invariant stfrom.Rest() == rest[i..] && stto.Put() == done + rest[..i]
      decreases |rest| - i
    {
      var c := stfrom.Getc();
      if c == -1 {
        break;
      }
      stto.Putc(c);
      Shift(done, rest, i);
      i := i + 1;
    }
  }

  lemma {:induction false} Shift(done: seq<byte>, rest: seq<byte>, i: nat)
    requires i < |rest|
    ensures (rest[i] as int % 256) as byte == rest[i] == rest[i..][0]
    ensures done + rest[..i] + [rest[i]] == done + rest[..i + 1] && rest[i..][1..] == rest[i + 1..]
  {
  }

  /** Copying a byte at a time through buffers of any size. */
  method Copy3(from: File, to: File, size: nat)
    requires from != to && from.Valid() && from.pos == 0 && size > 0
    modifies from`pos, to
    ensures to.data == from.data == old(from.data)
  {
    to.data := [];
    var stfrom := new Input(from, size);
    var stto := new Output(to, size);
    Pump(stfrom, stto);
    stto.Close();
  }

  const COPY2_BUFSIZE: nat := 1024

  /** The inner loop of `copy2`: one buffer, in as many writes as it takes. */
  method WriteAll(to: File, buf: array<byte>, nread: nat)
    requires 0 < nread <= buf.Length
    modifies to`data
    ensures to.data == old(to.data) + buf[..nread]
  {
    var nwrite: nat := 0;
    while true
      invariant nwrite < nread && to.data == old(to.data) + buf[..nwrite]
      decreases nread - nwrite
    {
      var n := to.Write(buf, nwrite, nread);
      assert buf[..nwrite] + buf[nwrite..nwrite + n] == buf[..nwrite + n];
      nwrite := nwrite + n;
      if nwrite >= nread {
        break;
      }
    }
  }

  /** Copying a buffer at a time. */
  method Copy2(from: File, to: File)
    requires from != to && from.Valid() && from.pos == 0
    modifies from`pos, to
    ensures to.data == from.data == old(from.data)
  {
    to.data := [];
    ghost var whole := from.data;
    var buf := new byte[COPY2_BUFSIZE];
    ghost var i := 0;
    while true
      invariant from.Valid() && from.data == whole && i <= |whole|
      invariant to.data == whole[..i] && from.Rest() == whole[i..]
      decreases |whole| - i
    {
      var nread: nat := from.Read(buf);
      if nread == 0 {
        break;
      }
      assert whole[..i] + whole[i..][..nread] == whole[..i + nread];
      WriteAll(to, buf, nread);
      i := i + nread;
    }
  }
}
