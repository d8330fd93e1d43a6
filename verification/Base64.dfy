/** Standard base64 with padding (section 4 of RFC 4648), decoded the way Go's encoding/base64 does. */
module Base64 {
  import opened Wrappers
  import opened EnvelopeCodec
  import opened Arithmetic

  type sextet = n: int | 0 <= n < 64

  /** A character of the text: a digit of the alphabet, the padding character, or neither. */
  datatype Symbol = Digit(n: sextet) | Pad | Junk

  // ------------------------------------------------ characters

  function Show(s: Symbol): char {
    match s
    case Digit(n) =>
      if n < 26 then 'A' + n as char
      else if n < 52 then 'a' + (n - 26) as char
      else if n < 62 then '0' + (n - 52) as char
      else if n == 62 then '+' else '/'
    case Pad => '='
    case Junk => '?'
  }

  function Classify(c: char): Symbol {
    if 'A' <= c <= 'Z' then Digit((c - 'A') as int)
    else if 'a' <= c <= 'z' then Digit((c - 'a') as int + 26)
    else if '0' <= c <= '9' then Digit((c - '0') as int + 52)
    else if c == '+' then Digit(62) else if c == '/' then Digit(63)
    else if c == '=' then Pad else Junk
  }

  predicate IsBreak(c: char) { c == '\r' || c == '\n' }

  lemma ClassifyShown(s: Symbol)
    ensures Classify(Show(s)) == s && !IsBreak(Show(s))
  {
  }

  function ShowAll(ss: seq<Symbol>): string {
    if ss == [] then "" else [Show(ss[0])] + ShowAll(ss[1..])
  }

  /** The decoder skips line breaks anywhere. */
  function Symbols(s: string): seq<Symbol> {
    if s == "" then []
    else if IsBreak(s[0]) then Symbols(s[1..])
    else [Classify(s[0])] + Symbols(s[1..])
  }

  lemma {:induction false} SymbolsOfShown(ss: seq<Symbol>)
    ensures Symbols(ShowAll(ss)) == ss
    decreases |ss|
  {
    if ss != [] {
      ClassifyShown(ss[0]);
      SymbolsOfShown(ss[1..]);
      assert ShowAll(ss)[1..] == ShowAll(ss[1..]);
    }
  }

  // ------------------------------------------------ groups of three bytes and four digits

  function Split0(b0: byte): sextet { b0 / 4 }
  function Split1(b0: byte, b1: byte): sextet { (b0 % 4) * 16 + b1 / 16 }
  function Split2(b1: byte, b2: byte): sextet { (b1 % 16) * 4 + b2 / 64 }
  function Split3(b2: byte): sextet { b2 % 64 }

  function Join0(v0: sextet, v1: sextet): byte { v0 * 4 + v1 / 16 }
  function Join1(v1: sextet, v2: sextet): byte { (v1 % 16) * 16 + v2 / 4 }
  function Join2(v2: sextet, v3: sextet): byte { (v2 % 4) * 64 + v3 }

  lemma JoinOfSplit(b0: byte, b1: byte, b2: byte)
    ensures Join0(Split0(b0), Split1(b0, b1)) == b0
    ensures Join1(Split1(b0, b1), Split2(b1, b2)) == b1
    ensures Join2(Split2(b1, b2), Split3(b2)) == b2
  {
  }

  function Grouped(b: seq<byte>): seq<Symbol> {
    if |b| == 0 then []
    else if |b| == 1 then [Digit(Split0(b[0])), Digit(Split1(b[0], 0)), Pad, Pad]
    else if |b| == 2 then [Digit(Split0(b[0])), Digit(Split1(b[0], b[1])), Digit(Split2(b[1], 0)), Pad]
    else [Digit(Split0(b[0])), Digit(Split1(b[0], b[1])), Digit(Split2(b[1], b[2])), Digit(Split3(b[2]))]
         + Grouped(b[3..])
  }

  /** Groups of four; padding only in the last one; left-over bits are ignored. */
  function Ungrouped(s: seq<Symbol>): Option<seq<byte>> {
    if s == [] then Some([])
    else if |s| < 4 || !s[0].Digit? || !s[1].Digit? then None
    else if s[2].Pad? then
      if s[3].Pad? && |s| == 4 then Some([Join0(s[0].n, s[1].n)]) else None
    else if s[2].Junk? then None
    else if s[3].Pad? then
      if |s| == 4 then Some([Join0(s[0].n, s[1].n), Join1(s[1].n, s[2].n)]) else None
    else if s[3].Junk? then None
    else
      match Ungrouped(s[4..])
      case None => None
      case Some(rest) => Some([Join0(s[0].n, s[1].n), Join1(s[1].n, s[2].n), Join2(s[2].n, s[3].n)] + rest)
  }

  lemma {:induction false} UngroupedOfGrouped(b: seq<byte>)
    ensures Ungrouped(Grouped(b)) == Some(b)
    decreases |b|
  {
    if |b| == 1 {
      OneByte(b);
    } else if |b| == 2 {
      TwoBytes(b);
    } else if |b| > 2 {
      ThreeBytes(b);
      UngroupedOfGrouped(b[3..]);
      assert b == [b[0], b[1], b[2]] + b[3..];
    }
  }

  lemma OneByte(b: seq<byte>)
    requires |b| == 1
    ensures Ungrouped(Grouped(b)) == Some(b)
  {
    JoinFirst(b[0]);
    assert b == [b[0]];
  }

  lemma JoinFirst(b0: byte)
    ensures Join0(Split0(b0), Split1(b0, 0)) == b0
  {
  }

  lemma TwoBytes(b: seq<byte>)
    requires |b| == 2
    ensures Ungrouped(Grouped(b)) == Some(b)
  {
    JoinOfSplit(b[0], b[1], 0);
    assert b == [b[0], b[1]];
  }

  lemma ThreeBytes(b: seq<byte>)
    requires |b| > 2
    ensures Ungrouped(Grouped(b)) ==
      match Ungrouped(Grouped(b[3..])) case None => None case Some(rest) => Some([b[0], b[1], b[2]] + rest)
  {
    JoinOfSplit(b[0], b[1], b[2]);
    assert Grouped(b)[4..] == Grouped(b[3..]);
  }

  // ------------------------------------------------ text

  /** base64.StdEncoding.EncodeToString */
  function Encode64(b: seq<byte>): string { ShowAll(Grouped(b)) }

  /** base64.StdEncoding.DecodeString; None is an error. */
  function Decode64(s: string): Option<seq<byte>> { Ungrouped(Symbols(s)) }

  /** Decoding what was encoded gives the bytes back. */
  lemma RoundTrip64(b: seq<byte>)
    ensures Decode64(Encode64(b)) == Some(b)
  {
    SymbolsOfShown(Grouped(b));
    UngroupedOfGrouped(b);
  }

  // ------------------------------------------------ the text by position

  const UPPER := "ABCDEFGHIJKLMNOPQRSTUVWXYZ"
  const LOWER := "abcdefghijklmnopqrstuvwxyz"
  const DECIMAL := "0123456789"

  /** Table 1 of RFC 4648 */
  const ALPHABET := UPPER + LOWER + DECIMAL + "+/"

  lemma Lengths()
    ensures |UPPER| == 26 && |LOWER| == 26 && |DECIMAL| == 10
  {
  }

  lemma Letter(n: nat)
    requires n < 26
    ensures 'A' + n as char == UPPER[n] && 'a' + n as char == LOWER[n]
  {
  }

  lemma Numeral(n: nat)
    requires n < 10
    ensures '0' + n as char == DECIMAL[n]
  {
  }

  lemma ShownDigit(n: sextet)
    ensures |ALPHABET| == 64 && Show(Digit(n)) == ALPHABET[n]
  {
    Lengths();
    if n < 26 { Letter(n); } else if n < 52 { Letter(n - 26); } else if n < 62 { Numeral(n - 52); }
  }

  /** The `j`-th of the four digits of a 24-bit number, the highest bits first. */
  function DigitOf(n: nat, j: nat): sextet
    requires n < 0x100_0000 && j < 4
  {
    if j == 0 then n / 262144 else if j == 1 then n / 4096 % 64 else if j == 2 then n / 64 % 64 else n % 64
  }

  /** The bytes from the `i`-th on as a number of 24 bits, missing bytes being zero. */
  function Bits24(b: seq<byte>, i: nat): (n: nat)
    requires i < |b|
    ensures n < 0x100_0000
  {
    b[i] as int * 65536 + (if i + 1 < |b| then b[i + 1] as int * 256 else 0)
    + (if i + 2 < |b| then b[i + 2] as int else 0)
  }

  /** The `j`-th character of the `g`-th group; a digit that holds no bit of a byte that is there is padding. */
  function SymbolAt(b: seq<byte>, g: nat, j: nat): Symbol
    requires 3 * g < |b| && j < 4
  {
    if j == 0 || 3 * g + j - 1 < |b| then Digit(DigitOf(Bits24(b, 3 * g), j)) else Pad
  }

  /** The digits of three bytes are those of the number they form. */
  lemma SplitValue(b0: byte, b1: byte, b2: byte)
    ensures
      var n := b0 as int * 65536 + b1 as int * 256 + b2 as int;
      && Split0(b0) == DigitOf(n, 0) && Split1(b0, b1) == DigitOf(n, 1)
      && Split2(b1, b2) == DigitOf(n, 2) && Split3(b2) == DigitOf(n, 3)
  {
    var c0, c1, c2: int := b0, b1, b2;
    var n := c0 * 65536 + c1 * 256 + c2;
    var x0, x1, x2 := c0 / 4, c1 / 16, c2 / 64;
    var y0, y1, y2 := c0 % 4, c1 % 16, c2 % 64;
    ModUnique(n, 262144, x0, y0 * 65536 + c1 * 256 + c2);
    ModUnique(n, 4096, c0 * 16 + x1, y1 * 256 + c2);
    ModUnique(c0 * 16 + x1, 64, x0, y0 * 16 + x1);
    ModUnique(n, 64, c0 * 1024 + c1 * 4 + x2, y2);
    ModUnique(c0 * 1024 + c1 * 4 + x2, 64, c0 * 16 + x1, y1 * 4 + x2);
  }

  lemma FirstGroup(b: seq<byte>)
    requires b != []
    ensures |Grouped(b)| == 4 + (if |b| < 3 then 0 else |Grouped(b[3..])|)
    ensures Grouped(b)[0] == SymbolAt(b, 0, 0) && Grouped(b)[1] == SymbolAt(b, 0, 1)
    ensures Grouped(b)[2] == SymbolAt(b, 0, 2) && Grouped(b)[3] == SymbolAt(b, 0, 3)
  {
    var b1, b2 := if |b| > 1 then b[1] else 0, if |b| > 2 then b[2] else 0;
    SplitBits(b, b1, b2);
    FirstFour(b, b1, b2);
  }

  lemma SplitBits(b: seq<byte>, b1: byte, b2: byte)
    requires b != [] && b1 == (if |b| > 1 then b[1] else 0) && b2 == (if |b| > 2 then b[2] else 0)
    ensures SymbolAt(b, 0, 0) == Digit(Split0(b[0])) && SymbolAt(b, 0, 1) == Digit(Split1(b[0], b1))
    ensures SymbolAt(b, 0, 2) == if |b| > 1 then Digit(Split2(b1, b2)) else Pad
    ensures SymbolAt(b, 0, 3) == if |b| > 2 then Digit(Split3(b2)) else Pad
  {
    SplitValue(b[0], b1, b2);
    assert Bits24(b, 0) == b[0] as int * 65536 + b1 as int * 256 + b2 as int;
  }

  lemma FirstFour(b: seq<byte>, b1: byte, b2: byte)
    requires b != [] && b1 == (if |b| > 1 then b[1] else 0) && b2 == (if |b| > 2 then b[2] else 0)
    ensures |Grouped(b)| == 4 + (if |b| < 3 then 0 else |Grouped(b[3..])|)
    ensures Grouped(b)[0] == Digit(Split0(b[0])) && Grouped(b)[1] == Digit(Split1(b[0], b1))
    ensures Grouped(b)[2] == if |b| > 1 then Digit(Split2(b1, b2)) else Pad
    ensures Grouped(b)[3] == if |b| > 2 then Digit(Split3(b2)) else Pad
  {
  }

  lemma {:induction false} GroupedLength(b: seq<byte>)
    ensures |Grouped(b)| == 4 * ((|b| + 2) / 3)
    decreases |b|
  {
    if |b| >= 3 {
      GroupedLength(b[3..]);
      assert (|b| + 2) / 3 == (|b| - 3 + 2) / 3 + 1;
    }
  }

  lemma {:induction false} GroupedSkip(b: seq<byte>, g: nat)
    requires 3 * g < |b|
    ensures 4 * g <= |Grouped(b)| && Grouped(b)[4 * g..] == Grouped(b[3 * g..])
    decreases g
  {
    if g == 0 {
      assert b[0..] == b;
    } else {
      var rest := b[3..];
      assert Grouped(b)[4..] == Grouped(rest);
      GroupedSkip(rest, g - 1);
      assert rest[3 * (g - 1)..] == b[3 * g..];
      assert Grouped(b)[4 * g..] == Grouped(b)[4..][4 * (g - 1)..];
    }
  }

  lemma GroupedAt(b: seq<byte>, g: nat, j: nat)
    requires 3 * g < |b| && j < 4
    ensures 4 * g + j < |Grouped(b)| && Grouped(b)[4 * g + j] == SymbolAt(b, g, j)
  {
    var rest := b[3 * g..];
    GroupedSkip(b, g);
    FirstGroup(rest);
    assert Grouped(b)[4 * g..][j] == Grouped(b)[4 * g + j];
    assert Bits24(rest, 0) == Bits24(b, 3 * g);
  }

  lemma {:induction false} ShowAllAt(ss: seq<Symbol>)
    ensures |ShowAll(ss)| == |ss| && forall i :: 0 <= i < |ss| ==> ShowAll(ss)[i] == Show(ss[i])
    decreases |ss|
  {
    if ss != [] {
      ShowAllAt(ss[1..]);
    }
  }

  /** The encoding of `b` by position: four characters for each three bytes begun, the digits of the 24-bit
      number they form read off the alphabet, and padding for the bytes that are missing. */
  lemma EncodedAt(b: seq<byte>, g: nat, j: nat)
    requires 3 * g < |b| && j < 4
    ensures |Encode64(b)| == 4 * ((|b| + 2) / 3)
    ensures Encode64(b)[4 * g + j] ==
      if j == 0 || 3 * g + j - 1 < |b| then ALPHABET[DigitOf(Bits24(b, 3 * g), j)] else '='
  {
    GroupedLength(b);
    GroupedAt(b, g, j);
    ShowAllAt(Grouped(b));
    ShownSymbol(b, g, j);
  }

  lemma ShownSymbol(b: seq<byte>, g: nat, j: nat)
    requires 3 * g < |b| && j < 4
    ensures |ALPHABET| == 64
    ensures Show(SymbolAt(b, g, j)) ==
      if j == 0 || 3 * g + j - 1 < |b| then ALPHABET[DigitOf(Bits24(b, 3 * g), j)] else '='
  {
    ShownDigit(DigitOf(Bits24(b, 3 * g), j));
  }

  // ------------------------------------------------ which texts decode

  /** Whole groups of four symbols, digits throughout; only the last two may be padding, the last alone or
      both. */
  predicate WellFormed(t: seq<Symbol>) {
    && |t| % 4 == 0
    && (forall i :: 0 <= i < |t| - 2 ==> t[i].Digit?)
    && (t != [] ==>
         && (t[|t| - 2].Digit? || (t[|t| - 2].Pad? && t[|t| - 1].Pad?))
         && (t[|t| - 1].Digit? || t[|t| - 1].Pad?))
  }

  lemma {:induction false} UngroupedExactly(t: seq<Symbol>)
    ensures Ungrouped(t).Some? <==> WellFormed(t)
    decreases |t|
  {
    if |t| > 4 {
      var rest := t[4..];
      UngroupedExactly(rest);
      assert WellFormed(t) <==> t[0].Digit? && t[1].Digit? && t[2].Digit? && t[3].Digit? && WellFormed(rest) by {
        assert forall i :: 0 <= i < |rest| ==> rest[i] == t[i + 4];
        assert forall i :: 4 <= i < |t| ==> t[i] == rest[i - 4];
      }
    }
  }

  lemma {:induction false} SymbolsConcat(a: string, b: string)
    ensures Symbols(a + b) == Symbols(a) + Symbols(b)
    decreases |a|
  {
    if a == "" {
      assert a + b == b;
    } else {
      SymbolsConcat(a[1..], b);
      assert (a + b)[1..] == a[1..] + b;
    }
  }

  /** Line breaks anywhere make no difference. */
  lemma BreaksIgnored(a: string, b: string)
    ensures Decode64(a + "\n" + b) == Decode64(a + b) && Decode64(a + "\r" + b) == Decode64(a + b)
  {
    SymbolsConcat(a, b);
    SymbolsConcat(a + "\n", b);
    SymbolsConcat(a + "\r", b);
    SymbolsConcat(a, "\n");
    SymbolsConcat(a, "\r");
    assert "\n"[1..] == "" && "\r"[1..] == "";
    assert Symbols(a) + [] == Symbols(a);
  }

  lemma DigitExactly(c: char)
    ensures Classify(c).Digit? <==> c in ALPHABET
    ensures Classify(c).Pad? <==> c == '='
  {
    if Classify(c).Digit? {
      ShownDigit(Classify(c).n);
      assert Show(Classify(c)) == c;
    }
    if c in ALPHABET {
      Lengths();
      var n :| 0 <= n < |ALPHABET| && ALPHABET[n] == c;
      ShownDigit(n);
      ClassifyShown(Digit(n));
    }
  }

  lemma {:induction false} SymbolsAt(s: string)
    requires forall i :: 0 <= i < |s| ==> s[i] != '\n' && s[i] != '\r'
    ensures |Symbols(s)| == |s| && forall i :: 0 <= i < |s| ==> Symbols(s)[i] == Classify(s[i])
    decreases |s|
  {
    if s != "" { SymbolsAt(s[1..]); }
  }

  /** The length is a multiple of four and the text consists of digits, but for one or two padding characters at
      the end. */
  predicate TextShape(s: string, digit: char -> bool) {
    && |s| % 4 == 0
    && (forall i :: 0 <= i < |s| - 2 ==> digit(s[i]))
    && (s != "" ==>
         && (digit(s[|s| - 2]) || (s[|s| - 2] == '=' && s[|s| - 1] == '='))
         && (digit(s[|s| - 1]) || s[|s| - 1] == '='))
  }

  lemma DecodesShape(s: string)
    requires forall i :: 0 <= i < |s| ==> s[i] != '\n' && s[i] != '\r'
    ensures Decode64(s).Some? <==> TextShape(s, c => Classify(c).Digit?)
  {
    UngroupedExactly(Symbols(s));
    SymbolsAt(s);
  }

  lemma SameShape(s: string, p: char -> bool, q: char -> bool)
    requires forall c :: p(c) == q(c)
    ensures TextShape(s, p) == TextShape(s, q)
  {
  }

  /** A text without line breaks decodes exactly when it has that shape for the digits of the alphabet. */
  lemma DecodesExactly(s: string)
    requires forall i :: 0 <= i < |s| ==> s[i] != '\n' && s[i] != '\r'
    ensures Decode64(s).Some? <==> TextShape(s, c => c in ALPHABET)
  {
    DecodesShape(s);
    var p, q := (c: char) => Classify(c).Digit?, (c: char) => c in ALPHABET;
    forall c: char ensures p(c) == q(c) { DigitExactly(c); }
    SameShape(s, p, q);
  }
}
