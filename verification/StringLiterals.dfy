/** String literals: what the lexer reads between quotes, and what is left after unescaping. */
module StringLiterals {
  import opened Terms

  type Byte = b: int | 0 <= b < 256

  const EOF: int := -1
  const QUOTE: Byte := 34
  const INPUT_BUFFER_SIZE: nat := 32768

  /** A buffered character is a signed char, so byte 255 reads as the end of the file. */
  function Code(interactive: bool, b: Byte): int {
    if interactive || b < 128 then b else b - 256
  }

  function ToByte(ch: int): Byte {
    ch % 256
  }

  function Codes(interactive: bool, s: seq<Byte>): seq<int> {
    seq(|s|, i requires 0 <= i < |s| => Code(interactive, s[i]))
  }

  // ----- the token -----

  datatype Scan = Unterminated | Scanned(token: seq<Byte>, rest: seq<int>)

  function Push(s: seq<Byte>, r: Scan): Scan {
    if r.Scanned? then Scanned(s + r.token, r.rest) else Unterminated
  }

  /** The characters after an opening quote: the rest of the token, and what is still unread. */
  function ScanString(input: seq<int>): Scan {
    if input == [] || input[0] == EOF then
      Unterminated
    else if input[0] != QUOTE then
      Push([ToByte(input[0])], ScanString(input[1..]))
    else if |input| > 1 && input[1] == QUOTE then
      Push([QUOTE, QUOTE], ScanString(input[2..]))
    else
      Scanned([QUOTE], if |input| == 1 then [EOF] else input[1..])
  }

  /** The token as a C string. */
  function CString(s: seq<Byte>): seq<Byte> {
    if s == [] || s[0] == 0 then [] else [s[0]] + CString(s[1..])
  }

  /** Of two quotes in a row the second is dropped, and so is whatever follows a quote. */
  function Unescape(s: seq<Byte>): seq<Byte>
    decreases |s|
  {
    if s == [] then []
    else if s[0] == QUOTE then [QUOTE] + Unescape(if |s| == 1 then [] else s[2..])
    else [s[0]] + Unescape(s[1..])
  }

  function Unquote(s: seq<Byte>): Option<seq<Byte>> {
    if |s| < 2 || (exists i | 1 <= i < |s| - 1 :: s[i] > 127) then None else Some(Unescape(s[1..|s| - 1]))
  }

  /** The value of the literal that starts here, if it has one. */
  function ParseLiteral(input: seq<int>): Option<seq<Byte>> {
    if input == [] then None
    else
      match ScanString(input[1..])
      case Unterminated => None
      case Scanned(token, _) => Unquote(CString([ToByte(input[0])] + token))
  }

  // ----- what is read -----

  /** Quotes come in pairs, and the input does not end. */
  ghost predicate Paired(s: seq<int>) {
    s == [] || (s[0] != QUOTE && s[0] != EOF && Paired(s[1..])) || (|s| > 1 && s[0] == QUOTE && s[1] == QUOTE && Paired(s[2..]))
  }

  function ToBytes(s: seq<int>): seq<Byte> {
    seq(|s|, i requires 0 <= i < |s| => ToByte(s[i]))
  }

  /** The first quote after paired ones that no quote follows. */
  ghost predicate ClosesAt(input: seq<int>, n: nat) {
    n < |input| && Paired(input[..n]) && input[n] == QUOTE && (n + 1 < |input| ==> input[n + 1] != QUOTE)
  }

  ghost function ScannedTo(input: seq<int>, n: nat): Scan
    requires n < |input|
  {
    Scanned(ToBytes(input[..n + 1]), if n + 1 == |input| then [EOF] else input[n + 1..])
  }

  lemma {:induction false} PushScanned(input: seq<int>, k: nat, n: nat)
    requires k <= n < |input|
    ensures Push(ToBytes(input[..k]), ScannedTo(input[k..], n - k)) == ScannedTo(input, n)
  {
    assert input[k..][..n - k + 1] == input[k..n + 1];
    assert ToBytes(input[..k]) + ToBytes(input[k..n + 1]) == ToBytes(input[..n + 1]);
    if n + 1 < |input| {
      assert input[k..][n - k + 1..] == input[n + 1..];
    }
  }

  lemma {:induction false} PairedFront(input: seq<int>, n: nat)
    requires n < |input|
    ensures 0 < n && input[0] != QUOTE && input[0] != EOF ==> (Paired(input[..n]) <==> Paired(input[1..][..n - 1]))
    ensures 1 < n && input[0] == QUOTE && input[1] == QUOTE ==> (Paired(input[..n]) <==> Paired(input[2..][..n - 2]))
    ensures Paired(input[..n]) ==> n == 0 || (input[0] != QUOTE && input[0] != EOF) || (n > 1 && input[0] == QUOTE && input[1] == QUOTE)
  {
    if n > 0 {
      assert input[..n][1..] == input[1..][..n - 1];
    }
    if n > 1 {
      assert input[..n][2..] == input[2..][..n - 2];
    }
  }

  /** The token ends at its closing quote, and what follows is unread. */
  lemma {:induction false} ClosedScan(input: seq<int>, n: nat)
    requires ClosesAt(input, n)
    ensures ScanString(input) == ScannedTo(input, n)
    decreases |input|
  {
    PairedFront(input, n);
    if n == 0 {
      assert input[..1] == [QUOTE] && ToBytes([QUOTE]) == [QUOTE];
    } else {
      var k := if input[0] == QUOTE then 2 else 1;
      ClosedScan(input[k..], n - k);
      PushScanned(input, k, n);
      assert ToBytes(input[..k]) == if input[0] == QUOTE then [QUOTE, QUOTE] else [ToByte(input[0])];
    }
  }

  lemma {:induction false} ScanCloses(input: seq<int>) returns (n: nat)
    requires ScanString(input).Scanned?
    ensures ClosesAt(input, n)
    decreases |input|
  {
    if input[0] == QUOTE && !(|input| > 1 && input[1] == QUOTE) {
      n := 0;
    } else {
      var k := if input[0] == QUOTE then 2 else 1;
      n := ScanCloses(input[k..]);
      n := n + k;
      PairedFront(input, n);
    }
  }

  /** A string token is scanned exactly if there is a closing quote. */
  lemma {:induction false} ScanIff(input: seq<int>, r: Scan)
    ensures ScanString(input) == r <==>
            (exists n: nat :: ClosesAt(input, n) && r == ScannedTo(input, n)) || (r == Unterminated && forall n: nat :: !ClosesAt(input, n))
  {
    forall n: nat | ClosesAt(input, n) ensures ScanString(input) == ScannedTo(input, n) {
      ClosedScan(input, n);
    }
    if ScanString(input).Scanned? {
      var n := ScanCloses(input);
    }
  }

  /** The byte 255 in a literal: it ends a buffered file, because a buffered character is signed, and is an
      ordinary character of an interactive input. */
  lemma {:induction false} FullByte(interactive: bool)
    ensures ScanString(Codes(interactive, [255, QUOTE])) == if interactive then Scanned([255, QUOTE], [EOF]) else Unterminated
  {
    var input := Codes(interactive, [255, QUOTE]);
    if interactive {
      assert input[1..] == [QUOTE];
    }
  }

  /** The text of a token ends before its first zero. */
  lemma {:induction false} CStringIs(s: seq<Byte>, n: nat)
    requires n <= |s| && 0 !in s[..n] && (n < |s| ==> s[n] == 0)
    ensures CString(s) == s[..n]
  {
    if n > 0 {
      assert s[..n][0] == s[0];
      assert s[1..][..n - 1] == s[..n][1..];
      CStringIs(s[1..], n - 1);
    }
  }

  /** Unescaping from position `k` on keeps a character, skips the one after a quote that is kept, and
      so on to the end. */
  lemma {:induction false} UnescapeReads(s: seq<Byte>, k: nat) returns (ps: seq<nat>)
    requires k <= |s|
    ensures |ps| == |Unescape(s[k..])| && (ps == [] <==> k == |s|) && (ps != [] ==> ps[0] == k)
    ensures forall j | 0 <= j < |ps| :: ps[j] < |s| && Unescape(s[k..])[j] == s[ps[j]]
    ensures forall j | 0 <= j < |ps| ::
              var next := ps[j] + if s[ps[j]] == QUOTE then 2 else 1;
              if next < |s| then j + 1 < |ps| && ps[j + 1] == next else j + 1 == |ps|
    decreases |s| - k
  {
    if k == |s| {
      ps := [];
    } else {
      var next := k + if s[k] == QUOTE then 2 else 1;
      var rest := [];
      if next < |s| {
        assert s[k..][next - k..] == s[next..];
        rest := UnescapeReads(s, next);
      }
      ps := [k] + rest;
      assert Unescape(s[k..]) == [s[k]] + (if next < |s| then Unescape(s[next..]) else []);
    }
  }

  // ----- the round trip -----

  function Escape(b: Byte): seq<Byte> {
    if b == QUOTE then [QUOTE, QUOTE] else [b]
  }

  function Doubled(s: seq<Byte>): seq<Byte> {
    if s == [] then [] else Escape(s[0]) + Doubled(s[1..])
  }

  /** How a string is written. */
  function Quoted(s: seq<Byte>): seq<Byte> {
    [QUOTE] + Doubled(s) + [QUOTE]
  }

  ghost predicate Ascii(s: seq<Byte>) {
    forall i | 0 <= i < |s| :: 1 <= s[i] <= 127
  }

  lemma {:induction false} CodesConcat(interactive: bool, s: seq<Byte>, t: seq<Byte>)
    ensures Codes(interactive, s + t) == Codes(interactive, s) + Codes(interactive, t)
  {
  }

  lemma {:induction false} PushPush(s: seq<Byte>, t: seq<Byte>, r: Scan)
    ensures Push(s, Push(t, r)) == Push(s + t, r)
  {
  }

  lemma {:induction false} ScanEscape(interactive: bool, b: Byte, input: seq<int>)
    ensures ScanString(Codes(interactive, Escape(b)) + input) ==
            if Code(interactive, b) == EOF then Unterminated else Push(Escape(b), ScanString(input))
  {
  }

  /** A doubled string is scanned as it is, up to a character that reads as the end of the file. */
  lemma {:induction false} ScanDoubled(interactive: bool, s: seq<Byte>, input: seq<int>)
    ensures ScanString(Codes(interactive, Doubled(s)) + input) ==
            if EOF in Codes(interactive, s) then Unterminated else Push(Doubled(s), ScanString(input))
    decreases |s|
  {
    hide ScanString, Escape, Code;
    if s == [] {
      assert Codes(interactive, Doubled(s)) + input == input;
      assert Push([], ScanString(input)) == ScanString(input);
    } else {
      var d, tail := Escape(s[0]), Codes(interactive, Doubled(s[1..])) + input;
      CodesConcat(interactive, d, Doubled(s[1..]));
      assert Codes(interactive, Doubled(s)) + input == Codes(interactive, d) + tail;
      assert Codes(interactive, s) == [Code(interactive, s[0])] + Codes(interactive, s[1..]);
      ScanEscape(interactive, s[0], tail);
      ScanDoubled(interactive, s[1..], input);
      PushPush(d, Doubled(s[1..]), ScanString(input));
    }
  }

  lemma {:induction false} UnescapeEscape(b: Byte, t: seq<Byte>)
    ensures Unescape(Escape(b) + t) == [b] + Unescape(t)
  {
  }

  lemma {:induction false} UnescapeDoubled(s: seq<Byte>, t: seq<Byte>)
    ensures Unescape(Doubled(s) + t) == s + Unescape(t)
    decreases |s|
  {
    hide Unescape, Escape;
    if s == [] {
      assert Doubled(s) + t == t;
    } else {
      assert Doubled(s) + t == Escape(s[0]) + (Doubled(s[1..]) + t);
      UnescapeDoubled(s[1..], t);
      UnescapeEscape(s[0], Doubled(s[1..]) + t);
      assert s + Unescape(t) == [s[0]] + (s[1..] + Unescape(t));
    }
  }

  lemma {:induction false} CStringPrefix(s: seq<Byte>, t: seq<Byte>)
    requires 0 !in s
    ensures CString(s + t) == s + CString(t)
    decreases |s|
  {
    if s == [] {
      assert s + t == t;
    } else {
      assert (s + t)[1..] == s[1..] + t;
      CStringPrefix(s[1..], t);
    }
  }

  lemma {:induction false} CStringNoZero(s: seq<Byte>)
    ensures 0 !in CString(s)
  {
    if s != [] {
      CStringNoZero(s[1..]);
    }
  }

  lemma {:induction false} UnescapeNoZero(s: seq<Byte>)
    requires 0 !in s
    ensures 0 !in Unescape(s)
  {
    if s != [] {
      if s[0] == QUOTE && |s| > 1 {
        UnescapeNoZero(s[2..]);
      } else {
        UnescapeNoZero(s[1..]);
      }
    }
  }

  /** Doubling quotes adds no other characters. */
  lemma {:induction false} DoubledSame(s: seq<Byte>, b: Byte)
    ensures b in Doubled(s) <==> b in s
  {
    if s != [] {
      DoubledSame(s[1..], b);
      assert s == [s[0]] + s[1..];
    }
  }

  /** What follows the quotes decides whether the literal ends there. */
  ghost predicate EndsBefore(rest: seq<Byte>) {
    rest == [] || rest[0] != QUOTE
  }

  lemma {:induction false} ScanQuoted(interactive: bool, s: seq<Byte>, rest: seq<Byte>)
    requires EOF !in Codes(interactive, s)
    ensures var input := Codes(interactive, Quoted(s) + rest);
            input != [] && input[0] == QUOTE &&
            ScanString(input[1..]) ==
              if rest == [] then Scanned(Doubled(s) + [QUOTE], [EOF])
              else if rest[0] != QUOTE then Scanned(Doubled(s) + [QUOTE], Codes(interactive, rest))
              else Push(Doubled(s) + [QUOTE, QUOTE], ScanString(Codes(interactive, rest[1..])))
  {
    hide ScanString, Doubled, Quoted, Codes;
    InsideQuotes(interactive, s, rest);
    ScanDoubled(interactive, s, Codes(interactive, [QUOTE] + rest));
    ScanEnd(interactive, Doubled(s), rest);
  }

  /** What happens at the closing quote depends on the character that follows. */
  lemma {:induction false} ScanEnd(interactive: bool, t: seq<Byte>, rest: seq<Byte>)
    ensures Push(t, ScanString(Codes(interactive, [QUOTE] + rest))) ==
              if rest == [] then Scanned(t + [QUOTE], [EOF])
              else if rest[0] != QUOTE then Scanned(t + [QUOTE], Codes(interactive, rest))
              else Push(t + [QUOTE, QUOTE], ScanString(Codes(interactive, rest[1..])))
  {
    hide ScanString, Codes;
    var tail, codes := Codes(interactive, [QUOTE] + rest), Codes(interactive, rest);
    ScanStep(t, tail);
    CodesCons(interactive, QUOTE, rest);
    assert tail[1..] == codes;
    if rest == [] {
      CodesNone(interactive);
    } else {
      CodesCons(interactive, rest[0], rest[1..]);
      assert rest == [rest[0]] + rest[1..];
      assert codes[1..] == Codes(interactive, rest[1..]);
      assert t + [QUOTE] + [QUOTE] == t + [QUOTE, QUOTE];
    }
  }

  lemma {:induction false} CodesCons(interactive: bool, b: Byte, s: seq<Byte>)
    ensures Codes(interactive, [b] + s) == [Code(interactive, b)] + Codes(interactive, s)
  {
  }

  lemma {:induction false} CodesNone(interactive: bool)
    ensures Codes(interactive, []) == []
  {
  }

  lemma {:induction false} InsideQuotes(interactive: bool, s: seq<Byte>, rest: seq<Byte>)
    ensures var input := Codes(interactive, Quoted(s) + rest);
            input != [] && input[0] == QUOTE &&
            input[1..] == Codes(interactive, Doubled(s)) + Codes(interactive, [QUOTE] + rest)
  {
    assert Quoted(s) + rest == [QUOTE] + (Doubled(s) + ([QUOTE] + rest));
    CodesConcat(interactive, [QUOTE], Doubled(s) + ([QUOTE] + rest));
    CodesConcat(interactive, Doubled(s), [QUOTE] + rest);
  }

  lemma {:induction false} HighDoubled(s: seq<Byte>, d: seq<Byte>)
    requires 0 !in s && d == Doubled(s)
    ensures Ascii(s) <==> forall i | 0 <= i < |d| :: d[i] <= 127
  {
    if Ascii(s) {
      forall i | 0 <= i < |d| ensures d[i] <= 127 {
        DoubledSame(s, d[i]);
      }
    }
    if forall i | 0 <= i < |d| :: d[i] <= 127 {
      forall i | 0 <= i < |s| ensures 1 <= s[i] <= 127 {
        DoubledSame(s, s[i]);
      }
    }
  }

  /** A literal without zero bytes that ends at its closing quote. */
  lemma {:induction false} UnquoteQuoted(s: seq<Byte>)
    requires 0 !in s
    ensures var r := Unquote(CString(Quoted(s)));
            r == if Ascii(s) then Some(s) else None
  {
    hide Doubled, Unescape, CString, Ascii;
    DoubledSame(s, 0);
    var c, d := Quoted(s), Doubled(s);
    assert c + [] == c && CString([]) == [] by {
      CStringPrefix([], []);
      CStringEmpty();
    }
    CStringPrefix(c, []);
    HighDoubled(s, d);
    assert c[1..|c| - 1] == d && d + [] == d;
    assert forall i | 1 <= i < |c| - 1 :: c[i] == d[i - 1];
    assert forall i | 0 <= i < |d| :: d[i] == c[i + 1];
    UnescapeDoubled(s, []);
    UnescapeEmpty();
    assert Unescape(d) == s;
    assert CString(c) == c;
    assert Unquote(c) == if forall i | 0 <= i < |d| :: d[i] <= 127 then Some(s) else None;
  }

  lemma {:induction false} CStringEmpty()
    ensures CString([]) == []
  {
  }

  lemma {:induction false} UnescapeEmpty()
    ensures Unescape([]) == []
  {
  }

  /** A literal that goes on with a quote is longer. */
  lemma {:induction false} UnquoteLonger(s: seq<Byte>, t: seq<Byte>)
    requires 0 !in s
    ensures Unquote(CString(Quoted(s) + ([QUOTE] + t))) != Some(s)
  {
    hide Doubled;
    DoubledSame(s, 0);
    var d, m := Doubled(s), [QUOTE] + CString(t);
    assert Quoted(s) + ([QUOTE] + t) == Quoted(s) + [QUOTE] + t;
    CStringPrefix(Quoted(s) + [QUOTE], t);
    var c := Quoted(s) + [QUOTE] + CString(t);
    var more := [QUOTE] + m[..|m| - 1];
    assert c == [QUOTE] + d + [QUOTE] + m;
    assert c[1..|c| - 1] == d + more;
    UnescapeDoubled(s, more);
    assert |Unescape(more)| > 0;
  }

  lemma {:induction false} ZeroIsLost(s: seq<Byte>, token: seq<Byte>)
    requires 0 in s
    ensures Unquote(CString(token)) != Some(s)
  {
    var c := CString(token);
    CStringNoZero(token);
    if |c| >= 2 {
      UnescapeNoZero(c[1..|c| - 1]);
    }
  }

  /** A string written with doubled quotes is read back as it was exactly if its characters are
      ASCII and not zero, and no quote follows; the character that follows is then the next one read. */
  lemma {:induction false} LiteralRoundTrip(interactive: bool, s: seq<Byte>, rest: seq<Byte>)
    ensures var input := Codes(interactive, Quoted(s) + rest);
            (ParseLiteral(input) == Some(s) <==> Ascii(s) && EndsBefore(rest)) &&
            (Ascii(s) && EndsBefore(rest) ==>
              ScanString(input[1..]) ==
                Scanned(Doubled(s) + [QUOTE], if rest == [] then [EOF] else Codes(interactive, rest)))
  {
    hide ScanString, CString, Unquote, Doubled, Quoted, Ascii;
    if EOF in Codes(interactive, s) {
      UnterminatedQuoted(interactive, s, rest);
    } else {
      ScanQuoted(interactive, s, rest);
      ParsedFrom(interactive, s, rest);
      AsciiNoZero(s);
    }
  }

  lemma {:induction false} AsciiNoZero(s: seq<Byte>)
    ensures Ascii(s) ==> 0 !in s
  {
  }

  lemma {:induction false} ParsedFrom(interactive: bool, s: seq<Byte>, rest: seq<Byte>)
    requires EOF !in Codes(interactive, s)
    ensures ParseLiteral(Codes(interactive, Quoted(s) + rest)) == Some(s) <==> Ascii(s) && EndsBefore(rest)
  {
    hide ScanString, CString, Unquote, Doubled, Unescape, Ascii;
    var input := Codes(interactive, Quoted(s) + rest);
    ScanQuoted(interactive, s, rest);
    var scan := ScanString(input[1..]);
    AsciiNoZero(s);
    if scan.Scanned? {
      if 0 in s {
        ZeroIsLost(s, [QUOTE] + scan.token);
      } else if EndsBefore(rest) {
        assert [QUOTE] + scan.token == Quoted(s);
        UnquoteQuoted(s);
      } else {
        var t := ScanString(Codes(interactive, rest[1..])).token;
        assert [QUOTE] + scan.token == Quoted(s) + ([QUOTE] + t);
        UnquoteLonger(s, t);
      }
    }
  }

  lemma {:induction false} UnterminatedQuoted(interactive: bool, s: seq<Byte>, rest: seq<Byte>)
    requires EOF in Codes(interactive, s)
    ensures ParseLiteral(Codes(interactive, Quoted(s) + rest)) == None && !Ascii(s)
  {
    InsideQuotes(interactive, s, rest);
    ScanDoubled(interactive, s, Codes(interactive, [QUOTE] + rest));
    var i :| 0 <= i < |s| && Codes(interactive, s)[i] == EOF;
    assert s[i] > 127;
  }

  // ----- the lexer -----

  class Lexer {
    const interactive: bool
    /** What the input stream has not handed out yet. */
    var stream: seq<Byte>
    const buffer: array<Byte>
    var bufferPos: nat
    var bufferEnd: nat
    var peekedChar: bool
    var chPeeked: int
    var token: seq<Byte>

    constructor (input: seq<Byte>, interactive: bool)
      ensures Valid() && fresh(buffer) && Ahead() == Codes(interactive, input) && this.interactive == interactive
    {
      this.interactive, stream, buffer := interactive, input, new Byte[INPUT_BUFFER_SIZE];
      bufferPos, bufferEnd, peekedChar, chPeeked, token := 0, 0, false, 0, [];
    }

    /** An interactive stream is read one character at a time and never buffered. */
    ghost predicate Valid()
      reads this`bufferPos, this`bufferEnd
    {
      buffer.Length == INPUT_BUFFER_SIZE && bufferPos <= bufferEnd <= buffer.Length &&
      (interactive ==> bufferPos == bufferEnd)
    }

    ghost function Unread(): seq<int>
      reads this`bufferPos, this`bufferEnd, this`stream, buffer
      requires Valid()
    {
      Codes(interactive, buffer[bufferPos..bufferEnd] + stream)
    }

    /** The characters that will be read next. */
    ghost function Ahead(): seq<int>
      reads this`bufferPos, this`bufferEnd, this`stream, this`peekedChar, this`chPeeked, buffer
      requires Valid()
    {
      if peekedChar then [chPeeked] + Unread() else Unread()
    }

    /** Reads from the buffer, which is filled again when it is used up. */
    method ReadNextChar() returns (ch: int)
      requires Valid()
      modifies this`stream, this`bufferPos, this`bufferEnd, buffer
      ensures Valid() && ch == First(old(Unread())) && Unread() == Rest(old(Unread()))
    {
      ghost var unread := buffer[bufferPos..bufferEnd] + stream;
      if bufferPos < bufferEnd {
        ch := Code(interactive, buffer[bufferPos]);
        bufferPos := bufferPos + 1;
        assert buffer[bufferPos..bufferEnd] + stream == unread[1..];
      } else if interactive {
        if stream == [] {
          ch := EOF;
        } else {
          ch := stream[0];
          stream := stream[1..];
          assert buffer[bufferPos..bufferEnd] + stream == unread[1..];
        }
      } else {
        var n := if |stream| < INPUT_BUFFER_SIZE then |stream| else INPUT_BUFFER_SIZE;
        forall i | 0 <= i < n {
          buffer[i] := stream[i];
        }
        stream := stream[n..];
        bufferEnd := n;
        if bufferEnd == 0 {
          ch := EOF;
          bufferPos := 0;
        } else {
          ch := Code(interactive, buffer[0]);
          bufferPos := 1;
          assert buffer[bufferPos..bufferEnd] + stream == unread[1..];
        }
      }
    }

    method NextChar() returns (ch: int)
      requires Valid()
      modifies this`stream, this`bufferPos, this`bufferEnd, this`peekedChar, buffer
      ensures Valid() && !peekedChar && ch == First(old(Ahead())) && Ahead() == Rest(old(Ahead()))
    {
      if peekedChar {
        ch := chPeeked;
        peekedChar := false;
      } else {
        ch := ReadNextChar();
      }
    }

    method SaveChar(ch: int)
      requires Valid() && !peekedChar
      modifies this`peekedChar, this`chPeeked
      ensures Valid() && Ahead() == [ch] + old(Ahead())
    {
      peekedChar, chPeeked := true, ch;
    }

    /** The next token, where a string literal starts. */
    method NextStringToken() returns (terminated: bool)
      requires Valid() && Ahead() != [] && Ahead()[0] == QUOTE
      modifies this, buffer
      ensures Valid()
      ensures match ScanString(old(Ahead())[1..])
              case Unterminated => !terminated
              case Scanned(t, rest) => terminated && token == [QUOTE] + t + [0] && Ahead() == rest
    {
      hide ScanString, Ahead, Unread, Codes, Push;
      ghost var input, t := Ahead()[1..], [];
      var ch := NextChar();
      token := [ToByte(ch)];
      assert Ahead() == input;
      PushNone(ScanString(input));
      while true
        invariant Valid() && !peekedChar && token == [QUOTE] + t
        invariant ScanString(input) == Push(t, ScanString(Ahead()))
        decreases |Ahead()|
      {
        ScanStep(t, Ahead());
        ch := NextChar();
        if ch == EOF {
          PushToken(0);
          return false;
        } else if ch == QUOTE {
          PushToken(ToByte(ch));
          t := t + [QUOTE];
          ch := NextChar();
          assert token == [QUOTE] + t;
          if ch != QUOTE {
            SaveChar(ch);
            PushToken(0);
            return true;
          }
        }
        PushToken(ToByte(ch));
        t := t + [ToByte(ch)];
      }
    }

    /** The string value of the next token, where a string literal starts. */
    method ParseStr() returns (r: Option<seq<Byte>>)
      requires Valid() && Ahead() != [] && Ahead()[0] == QUOTE
      modifies this, buffer
      ensures Valid() && r == ParseLiteral(old(Ahead()))
      ensures r != None ==> Ahead() == ScanString(old(Ahead())[1..]).rest
    {
      hide ScanString, Ahead, Unread, Codes, CString, Unquote;
      var terminated := NextStringToken();
      if terminated {
        var s := TokenStr();
        r := UnescapeString(s);
        CStringTerminated(token[..|token| - 1]);
      } else {
        r := None;
      }
    }

    /** The token up to its first zero. */
    method TokenStr() returns (s: seq<Byte>)
      ensures s == CString(token)
    {
      s := [];
      var i := 0;
      while i < |token| && token[i] != 0
        invariant 0 <= i <= |token| && CString(token) == s + CString(token[i..])
      {
        assert token[i..][1..] == token[i + 1..];
        s := s + [token[i]];
        i := i + 1;
      }
    }

    method PushToken(b: Byte)
      modifies this`token
      ensures token == old(token) + [b]
    {
      token := token + [b];
    }
  }

  lemma {:induction false} CStringTerminated(s: seq<Byte>)
    ensures CString(s + [0]) == CString(s)
    decreases |s|
  {
    if s != [] {
      assert (s + [0])[1..] == s[1..] + [0];
      CStringTerminated(s[1..]);
    }
  }

  /** Strips the quotes, refuses characters above 127, and drops escaping quotes in place. */
  method UnescapeString(s: seq<Byte>) returns (r: Option<seq<Byte>>)
    ensures r == Unquote(s)
  {
    if |s| < 2 {
      return None;
    }
    var a := new Byte[|s| - 2](i requires 0 <= i < |s| - 2 => s[i + 1]);
    ghost var inner := s[1..|s| - 1];
    assert a[..] == inner;
    var i := 0;
    while i < a.Length
      invariant 0 <= i <= a.Length && a[..] == inner
      invariant forall j | 0 <= j < i :: a[j] <= 127
    {
      if a[i] > 127 {
        assert s[i + 1] > 127;
        return None;
      }
      i := i + 1;
    }
    assert forall j | 1 <= j < |s| - 1 :: s[j] == a[j - 1];
    var dst := Compact(a);
    r := Some(a[..dst]);
  }

  method Compact(a: array<Byte>) returns (dst: nat)
    modifies a
    ensures dst <= a.Length && a[..dst] == Unescape(old(a[..]))
  {
    hide Unescape;
    var src := 0;
    dst := 0;
    ghost var all := a[..];
    assert Drop(all, 0) == all;
    while src < a.Length
      invariant dst <= src <= a.Length + 1 && dst <= a.Length
      invariant forall j | src <= j < a.Length :: a[j] == all[j]
      invariant Unescape(all) == a[..dst] + Unescape(Drop(all, src))
      decreases a.Length - src
    {
      UnescapeAt(all, src);
      ghost var done := a[..dst];
      a[dst] := a[src];
      assert a[..dst + 1] == done + [all[src]];
      if a[src] == QUOTE {
        src := src + 1;
      }
      src := src + 1;
      dst := dst + 1;
    }
    UnescapeEnd(all, src);
  }

  ghost function Drop(s: seq<Byte>, i: nat): seq<Byte> {
    if i <= |s| then s[i..] else []
  }

  lemma {:induction false} UnescapeEnd(s: seq<Byte>, i: nat)
    requires i >= |s|
    ensures Unescape(Drop(s, i)) == []
  {
  }

  lemma {:induction false} UnescapeAt(s: seq<Byte>, i: nat)
    requires i < |s|
    ensures Unescape(Drop(s, i)) == [s[i]] + Unescape(Drop(s, if s[i] == QUOTE then i + 2 else i + 1))
  {
  }

  lemma {:induction false} PushNone(r: Scan)
    ensures Push([], r) == r
  {
  }

  /** What the next characters mean inside a literal. */
  lemma {:induction false} ScanStep(t: seq<Byte>, ahead: seq<int>)
    ensures var ch, next := First(ahead), Rest(ahead);
            Push(t, ScanString(ahead)) ==
              if ch == EOF then Unterminated
              else if ch != QUOTE then Push(t + [ToByte(ch)], ScanString(next))
              else if First(next) != QUOTE then Scanned(t + [QUOTE], [First(next)] + Rest(next))
              else Push(t + [QUOTE] + [ToByte(First(next))], ScanString(Rest(next)))
    ensures First(ahead) != EOF ==> |Rest(Rest(ahead))| <= |Rest(ahead)| < |ahead|
  {
    if ahead != [] && ahead[0] != EOF {
      if ahead[0] != QUOTE {
        PushPush(t, [ToByte(ahead[0])], ScanString(ahead[1..]));
      } else if |ahead| > 1 && ahead[1] == QUOTE {
        assert ahead[2..] == Rest(Rest(ahead));
        PushPush(t, [QUOTE, QUOTE], ScanString(ahead[2..]));
        assert t + [QUOTE, QUOTE] == t + [QUOTE] + [QUOTE];
      }
    }
  }

  function First(input: seq<int>): int {
    if input == [] then EOF else input[0]
  }

  function Rest(input: seq<int>): seq<int> {
    if input == [] then [] else input[1..]
  }
}
