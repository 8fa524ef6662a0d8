/** The shell's tokens: what a line means, and how to write any token sequence down so
    that it is read back. */
module Tokenizing {
  const NUL: char := '\0'

  datatype Token = Word(text: string) | Bar | Amp | Semi | Gt | GtGt | Lt | Nl | Eof | Error

  datatype Mode = Neutral | AfterGt | InQuote | InWord

  /** A token and the input left for the next call. */
  datatype Lexed = Lexed(token: Token, rest: string)

  /** Characters that end an unquoted word. */
  predicate EndsWord(c: char) {
    c == ';' || c == '&' || c == '|' || c == '<' || c == '>' || c == '\n' || c == ' ' || c == '\t'
  }

  /** The token from `input` on, having collected `word` in state `mode`; a word and its
      terminator must fit into `max` characters. */
  function Lex(mode: Mode, word: string, input: string, max: nat): Lexed
    decreases |input|
  {
    if input == "" then Lexed(Eof, "")
    else
      var c, rest := input[0], input[1..];
      match mode
      case Neutral =>
        if c == ';' then Lexed(Semi, rest)
        else if c == '&' then Lexed(Amp, rest)
        else if c == '|' then Lexed(Bar, rest)
        else if c == '<' then Lexed(Lt, rest)
        else if c == '\n' then Lexed(Nl, rest)
        else if c == ' ' || c == '\t' then Lex(Neutral, word, rest, max)
        else if c == '>' then Lex(AfterGt, word, rest, max)
        else if c == '"' then Lex(InQuote, word, rest, max)
        else if |word| < max then Lex(InWord, word + [c], rest, max)
        else Lexed(Error, rest)
      case AfterGt => if c == '>' then Lexed(GtGt, rest) else Lexed(Gt, input)
      case InQuote =>
        if c == '\\' then
          var d, rest' := if rest == "" then '\\' else rest[0], if rest == "" then "" else rest[1..];
          if |word| < max then Lex(InQuote, word + [d], rest', max) else Lexed(Error, rest')
        else if |word| >= max then Lexed(Error, rest)
        else if c == '"' then Lexed(Word(word), rest)
        else Lex(InQuote, word + [c], rest, max)
      case InWord =>
        if EndsWord(c) then (if |word| < max then Lexed(Word(word), input) else Lexed(Error, input))
        else if |word| < max then Lex(InWord, word + [c], rest, max)
        else Lexed(Error, rest)
  }

  lemma {:induction false} LexConsumes(mode: Mode, word: string, input: string, max: nat)
    ensures |Lex(mode, word, input, max).rest| <= |input|
    ensures mode == Neutral && input != "" ==> |Lex(mode, word, input, max).rest| < |input|
    decreases |input|
  {
    if input != "" {
      var c, rest := input[0], input[1..];
      LexConsumes(Neutral, word, rest, max);
      LexConsumes(AfterGt, word, rest, max);
      LexConsumes(InQuote, word, rest, max);
      LexConsumes(InQuote, word + [c], rest, max);
      LexConsumes(InWord, word + [c], rest, max);
      if rest != "" {
        LexConsumes(InQuote, word + [rest[0]], rest[1..], max);
      } else {
        LexConsumes(InQuote, word + ['\\'], "", max);
      }
    }
  }

  /** What repeated calls give, up to the end of the input. */
  function LexAll(input: string, max: nat): seq<Token>
    decreases |input|
  {
    var r := Lex(Neutral, "", input, max);
    LexConsumes(Neutral, "", input, max);
    if r.token == Eof then [] else [r.token] + LexAll(r.rest, max)
  }

  // ---------- writing tokens down ----------

  /** `text` between quotes, the characters `esc` says with a backslash in front. */
  function Escaped(text: string, esc: seq<bool>): string
    requires |esc| == |text|
  {
    if text == "" then "" else (if esc[0] then ['\\', text[0]] else [text[0]]) + Escaped(text[1..], esc[1..])
  }

  /** Only quotes and backslashes need one. */
  ghost predicate EscapedEnough(text: string, esc: seq<bool>) {
    |esc| == |text| && forall i :: 0 <= i < |text| && (text[i] == '"' || text[i] == '\\') ==> esc[i]
  }

  function Needed(text: string): (esc: seq<bool>)
    ensures EscapedEnough(text, esc)
  {
    seq(|text|, i requires 0 <= i < |text| => text[i] == '"' || text[i] == '\\')
  }

  /** Words that may be written as they are. */
  predicate Plain(text: string) {
    text != "" && text[0] != '"' && forall i :: 0 <= i < |text| ==> text[i] !in {';', '&', '|', '<', '>', '\n', ' ', '\t'}
  }

  /** How a word may be typed: as it is where possible, or between quotes. */
  function Spelled(word: string, quote: bool): string {
    if !quote && Plain(word) then word else "\"" + Escaped(word, Needed(word)) + "\""
  }

  function Show(t: Token, quote: bool): string {
    match t
    case Word(text) => Spelled(text, quote)
    case Bar => "|" case Amp => "&" case Semi => ";"
    case Gt => ">" case GtGt => ">>" case Lt => "<" case Nl => "\n"
    case Eof => "" case Error => ""
  }

  /** Tokens that can be written down: words must leave room for their terminator. */
  predicate Printable(t: Token, max: nat) {
    t != Eof && t != Error && (t.Word? ==> |t.text| < max)
  }

  /** The tokens with a space after each; `quote` says which words to quote anyway. */
  function ShowAll(ts: seq<Token>, quote: seq<bool>): string
    requires |quote| == |ts|
  {
    if ts == [] then "" else Show(ts[0], quote[0]) + " " + ShowAll(ts[1..], quote[1..])
  }

  /** Reading a quoted word, however much of it is escaped: the word if it fits, an error
      exactly when it does not. */
  lemma {:induction false} LexQuoted(word: string, text: string, esc: seq<bool>, rest: string, max: nat)
    requires |word| <= max && EscapedEnough(text, esc)
    ensures var r := Lex(InQuote, word, Escaped(text, esc) + "\"" + rest, max);
            if |word| + |text| < max then r == Lexed(Word(word + text), rest) else r.token == Error
    decreases |text|
  {
    var input := Escaped(text, esc) + "\"" + rest;
    if text == "" {
      assert input == "\"" + rest && word + text == word;
    } else {
      var c := text[0];
      var tail := Escaped(text[1..], esc[1..]) + "\"" + rest;
      assert word + text == word + [c] + text[1..];
      if esc[0] {
        assert input == ['\\', c] + tail;
        assert input[1..] == [c] + tail && input[1..][1..] == tail;
      } else {
        assert input == [c] + tail;
        assert input[1..] == tail;
      }
      if |word| < max {
        LexQuoted(word + [c], text[1..], esc[1..], rest, max);
      }
    }
  }

  /** Without its closing quote a quotation is never a word: it runs to the end of the file. */
  lemma {:induction false} LexUnclosed(word: string, text: string, esc: seq<bool>, max: nat)
    requires |word| <= max && EscapedEnough(text, esc)
    ensures Lex(InQuote, word, Escaped(text, esc), max).token == if |word| + |text| <= max then Eof else Error
    decreases |text|
  {
    if text != "" {
      var c, tail := text[0], Escaped(text[1..], esc[1..]);
      if esc[0] {
        assert Escaped(text, esc)[1..] == [c] + tail && Escaped(text, esc)[1..][1..] == tail;
      } else {
        assert Escaped(text, esc)[1..] == tail;
      }
      if |word| < max {
        LexUnclosed(word + [c], text[1..], esc[1..], max);
      }
    }
  }

  /** Reading on in an unquoted word up to the character that ends it, which is left for the
      next call; at the end of the file the word is lost. */
  lemma {:induction false} LexPlain(word: string, text: string, rest: string, max: nat)
    requires |word| <= max
    requires forall i :: 0 <= i < |text| ==> text[i] !in {';', '&', '|', '<', '>', '\n', ' ', '\t'}
    requires rest == "" || rest[0] in {';', '&', '|', '<', '>', '\n', ' ', '\t'}
    ensures var r := Lex(InWord, word, text + rest, max);
            if rest != "" && |word| + |text| < max then r == Lexed(Word(word + text), rest)
            else if rest == "" && |word| + |text| <= max then r == Lexed(Eof, "")
            else r == Lexed(Error, if |word| + |text| == max then rest else (text + rest)[max - |word| + 1..])
    decreases |text|
  {
    var input := text + rest;
    if text == "" {
      assert input == rest && word + text == word;
    } else {
      assert input[1..] == text[1..] + rest;
      assert word + text == word + [text[0]] + text[1..];
      if |word| < max {
        LexPlain(word + [text[0]], text[1..], rest, max);
        if |word| + |text| > max {
          assert (text[1..] + rest)[max - |word|..] == input[max - |word| + 1..];
        }
      }
    }
  }

  /** The first character of a word or quotation. */
  lemma {:induction false} StartWord(c: char, rest: string, max: nat)
    ensures Lex(Neutral, "", "\"" + rest, max) == Lex(InQuote, "", rest, max)
    ensures Plain([c]) ==>
              if 0 < max then Lex(Neutral, "", [c] + rest, max) == Lex(InWord, [c], rest, max)
              else Lex(Neutral, "", [c] + rest, max) == Lexed(Error, rest)
  {
    assert [c][0] == c;
    assert ("\"" + rest)[1..] == rest && ([c] + rest)[1..] == rest && "" + [c] == [c];
  }

  /** A character that is a word by itself continues any word there is room for. */
  lemma {:induction false} StartsAndContinues(c: char, w: string, rest: string, max: nat)
    requires Lex(Neutral, "", [c] + " ", max) == Lexed(Word([c]), " ") && |w| < max
    ensures Lex(InWord, w, [c] + rest, max) == Lex(InWord, w + [c], rest, max)
  {
    assert ([c] + " ")[1..] == " " && ([c] + rest)[1..] == rest;
  }

  /** The symbols, character by character. */
  lemma {:induction false} SymbolTokens(rest: string, max: nat)
    ensures Lex(Neutral, "", ";" + rest, max) == Lexed(Semi, rest) && Lex(Neutral, "", "&" + rest, max) == Lexed(Amp, rest)
    ensures Lex(Neutral, "", "|" + rest, max) == Lexed(Bar, rest) && Lex(Neutral, "", "<" + rest, max) == Lexed(Lt, rest)
    ensures Lex(Neutral, "", "\n" + rest, max) == Lexed(Nl, rest) && Lex(Neutral, "", ">>" + rest, max) == Lexed(GtGt, rest)
    ensures rest != "" && rest[0] != '>' ==> Lex(Neutral, "", ">" + rest, max) == Lexed(Gt, rest)
    ensures Lex(Neutral, "", "", max) == Lex(Neutral, "", ">", max) == Lexed(Eof, "")
  {
    assert (";" + rest)[1..] == rest && ("&" + rest)[1..] == rest && ("|" + rest)[1..] == rest;
    assert ("<" + rest)[1..] == rest && ("\n" + rest)[1..] == rest && (">" + rest)[1..] == rest;
    assert (">>" + rest)[1..] == ">" + rest && (">" + rest)[1..] == rest;
  }

  /** Blanks before a token do not matter. */
  lemma {:induction false} SkipBlanks(blanks: string, tail: string, max: nat)
    requires forall i :: 0 <= i < |blanks| ==> blanks[i] == ' ' || blanks[i] == '\t'
    ensures Lex(Neutral, "", blanks + tail, max) == Lex(Neutral, "", tail, max)
  {
    if blanks == "" {
      assert blanks + tail == tail;
    } else {
      assert (blanks + tail)[1..] == blanks[1..] + tail;
      SkipBlanks(blanks[1..], tail, max);
    }
  }

  /** An unquoted word: what stands before the first of the eight characters that end it, if
      it fits.  The buffer overflows at the first character too many, or at the terminator. */
  lemma {:induction false} WordTokens(text: string, rest: string, max: nat)
    requires text != "" && text[0] != '"'
    requires forall i :: 0 <= i < |text| ==> text[i] !in {';', '&', '|', '<', '>', '\n', ' ', '\t'}
    requires rest == "" || rest[0] in {';', '&', '|', '<', '>', '\n', ' ', '\t'}
    ensures var r := Lex(Neutral, "", text + rest, max);
            if rest != "" && |text| < max then r == Lexed(Word(text), rest)
            else if rest == "" && |text| <= max then r == Lexed(Eof, "")
            else r == Lexed(Error, if |text| == max then rest else (text + rest)[max + 1..])
  {
    hide Lex;
    var c, tail := text[0], text[1..];
    assert text == [c] + tail && text + rest == [c] + (tail + rest);
    assert Plain([c]);
    StartWord(c, tail + rest, max);
    if 0 < max {
      LexPlain([c], tail, rest, max);
      if |text| > max {
        assert (tail + rest)[max - 1 + 1..] == (text + rest)[max + 1..];
      }
    }
  }

  /** A quoted word: the text between the quotes, escapes taken away, if it fits. */
  lemma {:induction false} QuotedTokens(text: string, esc: seq<bool>, rest: string, max: nat)
    requires EscapedEnough(text, esc)
    ensures var r := Lex(Neutral, "", "\"" + Escaped(text, esc) + "\"" + rest, max);
            if |text| < max then r == Lexed(Word(text), rest) else r.token == Error
    ensures Lex(Neutral, "", "\"" + Escaped(text, esc), max).token == if |text| <= max then Eof else Error
  {
    hide Lex;
    var body := Escaped(text, esc) + "\"" + rest;
    assert "\"" + Escaped(text, esc) + "\"" + rest == "\"" + body && "" + text == text;
    StartWord('"', body, max);
    LexQuoted("", text, esc, rest, max);
    StartWord('"', Escaped(text, esc), max);
    LexUnclosed("", text, esc, max);
  }

  lemma {:induction false} LexSymbol(t: Token, rest: string, max: nat)
    requires !t.Word? && t != Eof && t != Error && rest != "" && rest[0] == ' '
    ensures Lex(Neutral, "", Show(t, false) + rest, max) == Lexed(t, rest)
  {
    hide Lex;
    SymbolTokens(rest, max);
  }

  /** One token, read back. */
  lemma {:induction false} LexShow(t: Token, quote: bool, tail: string, max: nat)
    requires Printable(t, max)
    ensures Lex(Neutral, "", Show(t, quote) + " " + tail, max) == Lexed(t, " " + tail)
  {
    hide Lex;
    var rest := " " + tail;
    assert Show(t, quote) + " " + tail == Show(t, quote) + rest;
    if !t.Word? {
      LexSymbol(t, rest, max);
    } else if quote || !Plain(t.text) {
      QuotedTokens(t.text, Needed(t.text), rest, max);
    } else {
      WordTokens(t.text, rest, max);
    }
  }

  lemma {:induction false} SkipBlank(tail: string, max: nat)
    ensures Lex(Neutral, "", " " + tail, max) == Lex(Neutral, "", tail, max)
    ensures LexAll(" " + tail, max) == LexAll(tail, max)
  {
    hide Lex;
    SkipBlanks(" ", tail, max);
  }

  /** Any token sequence written down is read back, whatever follows it. */
  lemma {:induction false} RoundTrip(ts: seq<Token>, quote: seq<bool>, tail: string, max: nat)
    requires |quote| == |ts| && forall i :: 0 <= i < |ts| ==> Printable(ts[i], max)
    ensures LexAll(ShowAll(ts, quote) + tail, max) == ts + LexAll(tail, max)
  {
    hide Lex, LexAll, Show;
    if ts == [] {
      assert ShowAll(ts, quote) + tail == tail;
    } else {
      var more := ShowAll(ts[1..], quote[1..]) + tail;
      assert ShowAll(ts, quote) + tail == Show(ts[0], quote[0]) + " " + more;
      LexShow(ts[0], quote[0], more, max);
      LexAllStep(Show(ts[0], quote[0]) + " " + more, ts[0], " " + more, max);
      SkipBlank(more, max);
      RoundTrip(ts[1..], quote[1..], tail, max);
      assert ts == [ts[0]] + ts[1..];
    }
  }

  lemma {:induction false} LexAllStep(input: string, t: Token, rest: string, max: nat)
    requires Lex(Neutral, "", input, max) == Lexed(t, rest) && t != Eof
    ensures LexAll(input, max) == [t] + LexAll(rest, max)
  {
    hide Lex;
  }
}

module Lexer {
  import opened Tokenizing

  /** Standard input with `ungetc`. */
  class Input {
    var rest: string

    constructor (text: string)
      ensures rest == text
    {
      rest := text;
    }

    /** `getchar`: ok is false at the end of the file. */
    method GetChar() returns (ok: bool, c: char)
      modifies this
      ensures ok <==> old(rest) != ""
      ensures ok ==> c == old(rest)[0] && rest == old(rest)[1..]
      ensures !ok ==> rest == ""
    {
      if rest == "" {
        return false, NUL;
      }
      ok, c, rest := true, rest[0], rest[1..];
    }

    method UngetC(c: char)
      modifies this
      ensures rest == [c] + old(rest)
    {
      rest := [c] + rest;
    }
  }

  /** `store_char`. */
  method StoreChar(word: array<char>, c: char, wordn: nat) returns (ok: bool, n: nat)
    requires wordn <= word.Length
    modifies word
    ensures ok <==> wordn < word.Length
    ensures ok ==> n == wordn + 1 && word[..n] == old(word[..wordn]) + [c]
    ensures !ok ==> n == wordn
  {
    if wordn < word.Length {
      word[wordn] := c;
      return true, wordn + 1;
    }
    return false, wordn;
  }

  /** The token kinds `gettoken` returns; the text of a word is left in the buffer. */
  datatype Kind = KWord | KOther(token: Token)

  /** The call returned `kind` where the model says `r`. */
  ghost predicate Returned(kind: Kind, n: nat, word: seq<char>, rest: string, r: Lexed) {
    && rest == r.rest
    && (match kind
        case KWord => r.token.Word? && n <= |word| && word[..n] == r.token.text + [NUL]
        case KOther(t) => !t.Word? && r.token == t)
  }

  /** `gettoken`: the loop over the four states. */
  method GetToken(input: Input, word: array<char>) returns (kind: Kind, n: nat)
    modifies input, word
    ensures Returned(kind, n, word[..], input.rest, Lex(Neutral, "", old(input.rest), word.Length))
  {
    var mode := Neutral;
    n := 0;
    ghost var r := Lex(Neutral, "", input.rest, word.Length);
    while true
      invariant n <= word.Length && Lex(mode, word[..n], input.rest, word.Length) == r
      decreases |input.rest|
    {
      var more, c := input.GetChar();
      if !more {
        return KOther(Eof), n;
      }
      match mode {
        case Neutral =>
          if c == ';' { return KOther(Semi), n; }
          if c == '&' { return KOther(Amp), n; }
          if c == '|' { return KOther(Bar), n; }
          if c == '<' { return KOther(Lt), n; }
          if c == '\n' { return KOther(Nl), n; }
          if c == ' ' || c == '\t' { continue; }
          if c == '>' { mode := AfterGt; continue; }
          if c == '"' { mode := InQuote; continue; }
          mode := InWord;
          var ok;
          ok, n := StoreChar(word, c, n);
          if !ok { return KOther(Error), n; }
        case AfterGt =>
          if c == '>' { return KOther(GtGt), n; }
          input.UngetC(c);
          return KOther(Gt), n;
        case InQuote =>
          var ok;
          if c == '\\' {
            var d;
            more, d := input.GetChar();
            if !more { d := '\\'; }
            ok, n := StoreChar(word, d, n);
            if !ok { return KOther(Error), n; }
          } else if c == '"' {
            ok, n := StoreChar(word, NUL, n);
            if !ok { return KOther(Error), n; }
            return KWord, n;
          } else {
            ok, n := StoreChar(word, c, n);
            if !ok { return KOther(Error), n; }
          }
        case InWord =>
          var ok;
          if EndsWord(c) {
            input.UngetC(c);
            ok, n := StoreChar(word, NUL, n);
            if !ok { return KOther(Error), n; }
            return KWord, n;
          }
          ok, n := StoreChar(word, c, n);
          if !ok { return KOther(Error), n; }
      }
    }
  }
}
