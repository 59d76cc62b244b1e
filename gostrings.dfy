/**
 * The parts of Go's `strings`, `strconv`, `unicode/utf8`, `fmt` and `bufio` packages that the
 * checker uses. A Go string is modelled by the sequence of runes it decodes to (a Dafny `string`);
 * bytes that reach a digest or a file are a `seq<byte>`.
 */
module GoStrings {
  import opened Wrappers

  newtype byte = b: int | 0 <= b < 256

  const LF: byte := 10
  const CR: byte := 13

  /** unicode.IsSpace: the White_Space property of Unicode. */
  predicate IsSpace(c: char) {
    var n := c as int;
    (9 <= n <= 13) || n == 0x20 || n == 0x85 || n == 0xA0 || n == 0x1680
    || (0x2000 <= n <= 0x200A) || n == 0x2028 || n == 0x2029 || n == 0x202F
    || n == 0x205F || n == 0x3000
  }

  predicate NoSpace(s: string) {
    forall i :: 0 <= i < |s| ==> !IsSpace(s[i])
  }

  /** strings.HasPrefix */
  predicate HasPrefix(s: string, prefix: string) {
    prefix <= s
  }

  /** strings.HasSuffix */
  predicate HasSuffix(s: string, suffix: string) {
    |suffix| <= |s| && s[|s| - |suffix|..] == suffix
  }

  /** strings.TrimPrefix */
  function TrimPrefix(s: string, prefix: string): (r: string)
    ensures HasPrefix(s, prefix) ==> prefix + r == s
    ensures !HasPrefix(s, prefix) ==> r == s
  {
    if HasPrefix(s, prefix) then s[|prefix|..] else s
  }

  /** strings.TrimSuffix */
  function TrimSuffix(s: string, suffix: string): (r: string)
    ensures HasSuffix(s, suffix) ==> r + suffix == s
    ensures !HasSuffix(s, suffix) ==> r == s
  {
    if HasSuffix(s, suffix) then s[..|s| - |suffix|] else s
  }

  function TrimLeftSpace(s: string): (r: string)
    ensures |r| <= |s|
    ensures r == [] || !IsSpace(r[0])
  {
    if |s| > 0 && IsSpace(s[0]) then TrimLeftSpace(s[1..]) else s
  }

  /** TrimLeftSpace cuts a prefix made of white space only. */
  lemma {:induction false} TrimLeftSpaceCuts(s: string)
    ensures TrimLeftSpace(s) == s[|s| - |TrimLeftSpace(s)|..]
    ensures forall i :: 0 <= i < |s| - |TrimLeftSpace(s)| ==> IsSpace(s[i])
  {
    if |s| > 0 && IsSpace(s[0]) {
      TrimLeftSpaceCuts(s[1..]);
      assert s[1..][|s| - 1 - |TrimLeftSpace(s)|..] == s[|s| - |TrimLeftSpace(s)|..];
      forall i | 1 <= i < |s| - |TrimLeftSpace(s)| ensures IsSpace(s[i]) {
        assert s[i] == s[1..][i - 1];
      }
    }
  }

  function TrimRightSpace(s: string): (r: string)
    ensures |r| <= |s|
    ensures r == [] || !IsSpace(r[|r| - 1])
  {
    if |s| > 0 && IsSpace(s[|s| - 1]) then TrimRightSpace(s[..|s| - 1]) else s
  }

  /** TrimRightSpace cuts a suffix made of white space only. */
  lemma {:induction false} TrimRightSpaceCuts(s: string)
    ensures TrimRightSpace(s) == s[..|TrimRightSpace(s)|]
    ensures forall i :: |TrimRightSpace(s)| <= i < |s| ==> IsSpace(s[i])
  {
    if |s| > 0 && IsSpace(s[|s| - 1]) {
      var t := s[..|s| - 1];
      TrimRightSpaceCuts(t);
      assert t[..|TrimRightSpace(s)|] == s[..|TrimRightSpace(s)|];
      forall i | |TrimRightSpace(s)| <= i < |s| - 1 ensures IsSpace(s[i]) {
        assert s[i] == t[i];
      }
    }
  }

  /** strings.TrimSpace: white space is cut from both ends, and a string without white space is
      returned unchanged. */
  function TrimSpace(s: string): (r: string)
    ensures |r| <= |s|
    ensures NoSpace(s) ==> r == s
  {
    TrimRightSpace(TrimLeftSpace(s))
  }

  /** strings.TrimSpace removes all leading and trailing white space and nothing else: what it
      keeps is the factor of its argument starting at k, everything outside that factor is white
      space, and the result neither starts nor ends with white space. */
  lemma TrimSpaceFactor(s: string)
    ensures var k := |s| - |TrimLeftSpace(s)|;
      k + |TrimSpace(s)| <= |s| && s[k..k + |TrimSpace(s)|] == TrimSpace(s)
    ensures var k := |s| - |TrimLeftSpace(s)|;
      forall i :: 0 <= i < |s| && !(k <= i < k + |TrimSpace(s)|) ==> IsSpace(s[i])
    ensures var r := TrimSpace(s); r == [] || (!IsSpace(r[0]) && !IsSpace(r[|r| - 1]))
  {
    var l := TrimLeftSpace(s);
    var k := |s| - |l|;
    var t := TrimSpace(s);
    TrimLeftSpaceCuts(s);
    TrimRightSpaceCuts(l);
    assert t == TrimRightSpace(l) && t == l[..|t|];
    assert l == s[k..];
    assert s[k..k + |t|] == l[..|t|];
    forall i | 0 <= i < |s| && !(k <= i < k + |t|) ensures IsSpace(s[i]) {
      if k <= i {
        assert s[i] == l[i - k];
      }
    }
    if t != [] {
      assert t[0] == l[0];
    }
  }

  /** ": " starts at index i of s. */
  predicate ColonAt(s: string, i: int)
    requires 0 <= i && i + 1 < |s|
  {
    s[i] == ':' && s[i + 1] == ' '
  }

  /** The first index at or after k where ": " starts, or -1. */
  function ColonFrom(s: string, k: nat): (r: int)
    requires k <= |s|
    ensures r == -1 || (k <= r && r + 2 <= |s| && ColonAt(s, r))
    decreases |s| - k
  {
    if k + 2 > |s| then -1 else if ColonAt(s, k) then k else ColonFrom(s, k + 1)
  }

  /** strings.Index(s, ": "), or -1 when `s` does not contain ": ". */
  function ColonSpace(s: string): (r: int)
    ensures r == -1 || (0 <= r && r + 2 <= |s| && ColonAt(s, r))
  {
    ColonFrom(s, 0)
  }

  /** ColonFrom finds the first occurrence. */
  lemma {:induction false} ColonFromFirst(s: string, k: nat)
    requires k <= |s|
    ensures forall j :: k <= j && j + 1 < |s| && (ColonFrom(s, k) < 0 || j < ColonFrom(s, k)) ==> !ColonAt(s, j)
    decreases |s| - k
  {
    if k + 2 <= |s| && !ColonAt(s, k) {
      ColonFromFirst(s, k + 1);
    }
  }

  lemma {:induction false} ColonFromAt(s: string, k: nat, m: nat)
    requires k <= m && m + 1 < |s| && ColonAt(s, m)
    requires forall j :: k <= j < m ==> s[j] != ':'
    ensures ColonFrom(s, k) == m
    decreases m - k
  {
    if k < m {
      ColonFromAt(s, k + 1, m);
    }
  }

  /** strings.Index returns the first occurrence of ": ". */
  lemma ColonSpaceFirst(s: string)
    ensures forall j :: 0 <= j && j + 1 < |s| && (ColonSpace(s) < 0 || j < ColonSpace(s)) ==> !ColonAt(s, j)
  {
    ColonFromFirst(s, 0);
  }

  /** strings.SplitN(s, ": ", 2): one part when ": " does not occur, otherwise the text before
      its first occurrence and the text after it. */
  function SplitColonSpace(s: string): (parts: seq<string>)
    ensures 1 <= |parts| <= 2
    ensures |parts| == 1 <==> ColonSpace(s) < 0
    ensures |parts| == 1 ==> parts[0] == s
    ensures |parts| == 2 ==> parts[0] == s[..ColonSpace(s)] && parts[1] == s[ColonSpace(s) + 2..]
  {
    var i := ColonSpace(s);
    if i < 0 then [s] else [s[..i], s[i + 2..]]
  }

  /** The two parts with ": " between them give the string back. */
  lemma SplitColonSpaceJoin(s: string)
    requires |SplitColonSpace(s)| == 2
    ensures SplitColonSpace(s)[0] + ": " + SplitColonSpace(s)[1] == s
  {
    var i := ColonSpace(s);
    assert s == s[..i] + s[i..i + 2] + s[i + 2..];
  }

  lemma SplitKeyValue(key: string, value: string)
    requires ':' !in key
    ensures SplitColonSpace(key + ": " + value) == [key, value]
  {
    var s := key + ": " + value;
    forall j | 0 <= j < |key| ensures s[j] != ':' {
      assert s[j] == key[j];
    }
    assert s[|key|] == ':' && s[|key| + 1] == ' ';
    ColonFromAt(s, 0, |key|);
    assert s[..|key|] == key;
    assert s[|key| + 2..] == value;
  }

  /** One `Key: value` line as the stanza loops read it: the key is the text before the first
      ": " (the whole line when there is none) and the value is the trimmed rest, or "". */
  datatype Field = Field(key: string, value: string)

  function ParseField(line: string): Field {
    var parts := SplitColonSpace(line);
    Field(parts[0], if |parts| == 2 then TrimSpace(parts[1]) else "")
  }

  /** Lines of text, each split at its first ": " and its value trimmed. */
  function Parsed(lines: seq<string>): (fs: seq<Field>)
    ensures |fs| == |lines| && forall i :: 0 <= i < |lines| ==> fs[i] == ParseField(lines[i])
  {
    seq(|lines|, i requires 0 <= i < |lines| => ParseField(lines[i]))
  }

  /** Length of the leading run of non-space characters. */
  function WordLength(s: string): (n: nat)
    ensures n <= |s|
    ensures s != [] && !IsSpace(s[0]) ==> n > 0
  {
    if s == [] || IsSpace(s[0]) then 0 else 1 + WordLength(s[1..])
  }

  /** The run ends at white space or at the end of the string. */
  lemma {:induction false} WordLengthRun(s: string)
    ensures forall i :: 0 <= i < WordLength(s) ==> !IsSpace(s[i])
    ensures WordLength(s) < |s| ==> IsSpace(s[WordLength(s)])
  {
    if s != [] && !IsSpace(s[0]) {
      WordLengthRun(s[1..]);
      forall i | 1 <= i < WordLength(s) ensures !IsSpace(s[i]) {
        assert s[i] == s[1..][i - 1];
      }
    }
  }

  /** strings.Fields: the maximal runs of non-space characters, in order. */
  function Fields(s: string): (r: seq<string>)
    decreases |s|
  {
    var t := TrimLeftSpace(s);
    if t == [] then []
    else
      var n := WordLength(t);
      [t[..n]] + Fields(t[n..])
  }

  /** Every field is a non-empty run without white space. */
  lemma {:induction false} FieldsWords(s: string)
    ensures forall i :: 0 <= i < |Fields(s)| ==> Fields(s)[i] != [] && NoSpace(Fields(s)[i])
    decreases |s|
  {
    var t := TrimLeftSpace(s);
    if t != [] {
      var n := WordLength(t);
      WordLengthRun(t);
      FieldsWords(t[n..]);
      assert Fields(s) == [t[..n]] + Fields(t[n..]);
    }
  }

  // ---- fmt "%d" and "%x", strconv.ParseUint ----

  const TwoTo64: nat := 0x1_0000_0000_0000_0000

  /** Adding to a wrapped uint64 wraps like adding to the unwrapped sum. */
  lemma AddMod(a: nat, n: nat)
    ensures (a % TwoTo64 + n) % TwoTo64 == (a + n) % TwoTo64
  {
  }

  function DecimalDigit(d: nat): char
    requires d < 10
  {
    "0123456789"[d]
  }

  predicate IsDigit(c: char) {
    '0' <= c <= '9'
  }

  /** fmt's "%d" of an unsigned integer. */
  function FormatUint(n: nat): (s: string)
    ensures |s| > 0 && forall i :: 0 <= i < |s| ==> IsDigit(s[i])
  {
    if n < 10 then [DecimalDigit(n)] else FormatUint(n / 10) + [DecimalDigit(n % 10)]
  }

  function DecimalValue(s: string): nat
    requires forall i :: 0 <= i < |s| ==> IsDigit(s[i])
  {
    if s == [] then 0
    else
      assert IsDigit(s[|s| - 1]);
      10 * DecimalValue(s[..|s| - 1]) + (s[|s| - 1] as int - '0' as int)
  }

  /** strconv.ParseUint(s, 10, 64): a non-empty string of decimal digits whose value fits in
      64 bits; anything else (sign, space, underscore, overflow, "") is an error. */
  function ParseUint(s: string): (r: Option<nat>)
    ensures r.Some? ==> r.value < TwoTo64
  {
    if s != [] && (forall i :: 0 <= i < |s| ==> IsDigit(s[i])) && DecimalValue(s) < TwoTo64
    then Some(DecimalValue(s)) else None
  }

  lemma {:induction false} DecimalOfFormat(n: nat)
    ensures DecimalValue(FormatUint(n)) == n
  {
    if n >= 10 {
      var s := FormatUint(n);
      assert s[..|s| - 1] == FormatUint(n / 10);
      DecimalOfFormat(n / 10);
    }
  }

  lemma ParseFormatUint(n: nat)
    requires n < TwoTo64
    ensures ParseUint(FormatUint(n)) == Some(n)
  {
    DecimalOfFormat(n);
  }

  function HexDigit(d: nat): char
    requires d < 16
  {
    "0123456789abcdef"[d]
  }

  /** fmt's "%x" of a byte slice: two lower-case hex digits per byte. */
  function Hex(b: seq<byte>): (s: string)
    ensures |s| == 2 * |b|
    ensures forall i :: 0 <= i < |s| ==> IsHexDigit(s[i])
  {
    if b == [] then "" else [HexDigit(b[0] as nat / 16), HexDigit(b[0] as nat % 16)] + Hex(b[1..])
  }

  predicate IsHexDigit(c: char) {
    ('0' <= c <= '9') || ('a' <= c <= 'f')
  }

  // ---- []byte(s) and reading text back ----

  function Utf8Rune(c: char): (b: seq<byte>)
    ensures 1 <= |b| <= 4
    ensures c as int < 0x80 ==> b == [c as int as byte]
    ensures c as int >= 0x80 ==> forall i :: 0 <= i < |b| ==> b[i] >= 0x80
  {
    var n := c as int;
    if n < 0x80 then [n as byte]
    else if n < 0x800 then [(0xC0 + n / 64) as byte, (0x80 + n % 64) as byte]
    else if n < 0x1_0000 then
      [(0xE0 + n / 4096) as byte, (0x80 + (n / 64) % 64) as byte, (0x80 + n % 64) as byte]
    else
      [(0xF0 + n / 262144) as byte, (0x80 + (n / 4096) % 64) as byte,
       (0x80 + (n / 64) % 64) as byte, (0x80 + n % 64) as byte]
  }

  /** []byte(s): the UTF-8 encoding of the string. */
  function Utf8(s: string): (b: seq<byte>)
    ensures |s| <= |b|
  {
    if s == [] then [] else Utf8Rune(s[0]) + Utf8(s[1..])
  }

  lemma {:induction false} Utf8Append(a: string, b: string)
    ensures Utf8(a + b) == Utf8(a) + Utf8(b)
  {
    if a != [] {
      calc {
        Utf8(a + b);
        Utf8Rune((a + b)[0]) + Utf8((a + b)[1..]);
        { assert (a + b)[0] == a[0]; assert (a + b)[1..] == a[1..] + b; }
        Utf8Rune(a[0]) + Utf8(a[1..] + b);
        { Utf8Append(a[1..], b); }
        Utf8Rune(a[0]) + (Utf8(a[1..]) + Utf8(b));
      }
    } else {
      assert a + b == b;
    }
  }

  predicate IsAscii(s: string) {
    forall i :: 0 <= i < |s| ==> s[i] as int < 0x80
  }

  lemma {:induction false} Utf8Ascii(s: string)
    requires IsAscii(s)
    ensures |Utf8(s)| == |s|
    ensures forall i :: 0 <= i < |s| ==> Utf8(s)[i] == s[i] as int as byte
  {
    if s != [] {
      Utf8Ascii(s[1..]);
    }
  }

  /** A file's bytes read back as a Go string, one character per byte. */
  function Latin1(b: seq<byte>): (s: string)
    ensures |s| == |b| && forall i :: 0 <= i < |b| ==> s[i] as int == b[i] as int
  {
    if b == [] then "" else [b[0] as int as char] + Latin1(b[1..])
  }

  lemma Latin1OfAscii(s: string)
    requires IsAscii(s)
    ensures Latin1(Utf8(s)) == s
  {
    Utf8Ascii(s);
  }

  /** Position of the first newline byte, or -1. */
  function IndexLF(b: seq<byte>): (r: int)
    ensures -1 <= r < |b|
    ensures r >= 0 ==> b[r] == LF
    ensures forall i :: 0 <= i < (if r < 0 then |b| else r) ==> b[i] != LF
  {
    if b == [] then -1
    else if b[0] == LF then 0
    else
      var k := IndexLF(b[1..]);
      if k < 0 then -1 else k + 1
  }

  function DropCR(b: seq<byte>): seq<byte> {
    if |b| > 0 && b[|b| - 1] == CR then b[..|b| - 1] else b
  }

  /** bufio.ScanLines applied until the end of the data: lines end at '\n', one trailing '\r' is
      dropped, and a final line without '\n' is kept. */
  function ScanLines(data: seq<byte>): (lines: seq<seq<byte>>)
    decreases |data|
  {
    if data == [] then []
    else
      var i := IndexLF(data);
      if i < 0 then [DropCR(data)] else [DropCR(data[..i])] + ScanLines(data[i + 1..])
  }

  /** What a bufio.Scanner over a file yields: its lines, as strings. */
  function TextLines(data: seq<byte>): (lines: seq<string>)
    ensures |lines| == |ScanLines(data)|
  {
    Latin1All(ScanLines(data))
  }

  /** Every line's bytes as text. */
  function Latin1All(ls: seq<seq<byte>>): (r: seq<string>)
    ensures |r| == |ls| && forall i :: 0 <= i < |ls| ==> r[i] == Latin1(ls[i])
  {
    if ls == [] then [] else [Latin1(ls[0])] + Latin1All(ls[1..])
  }

  /** The text `l + "\n"` for every line, concatenated: what Fprintf of one line after another
      writes, and what the signature capture loop builds. */
  function JoinLines(ls: seq<string>): string {
    if ls == [] then "" else ls[0] + "\n" + JoinLines(ls[1..])
  }

  lemma {:induction false} JoinLinesSnoc(ls: seq<string>, l: string)
    ensures JoinLines(ls + [l]) == JoinLines(ls) + l + "\n"
    decreases |ls|
  {
    if ls != [] {
      assert (ls + [l])[1..] == ls[1..] + [l];
      JoinLinesSnoc(ls[1..], l);
    }
  }

  /** A line that survives a write-then-scan round trip unchanged. */
  predicate PlainLine(l: string) {
    IsAscii(l) && '\n' !in l && (l == [] || l[|l| - 1] != '\r')
  }

  /** Scanning a plain line followed by '\n' yields that line and then whatever follows. */
  lemma ScanPlainLine(l: string, tail: seq<byte>)
    requires PlainLine(l)
    ensures ScanLines(Utf8(l) + [LF] + tail) == [Utf8(l)] + ScanLines(tail)
  {
    Utf8Ascii(l);
    var data := Utf8(l) + [LF] + tail;
    forall i | 0 <= i < |l| ensures data[i] != LF {
      assert data[i] == l[i] as int as byte;
      assert l[i] != '\n';
    }
    assert data[|l|] == LF;
    assert IndexLF(data) == |l|;
    assert data[..|l|] == Utf8(l);
    assert data[|l| + 1..] == tail;
    if |l| > 0 {
      assert Utf8(l)[|l| - 1] == l[|l| - 1] as int as byte;
    }
    assert DropCR(Utf8(l)) == Utf8(l);
  }

  lemma Utf8Line(l: string, rest: string)
    ensures Utf8(l + "\n" + rest) == Utf8(l) + [LF] + Utf8(rest)
  {
    Utf8Append(l + "\n", rest);
    Utf8Append(l, "\n");
  }

  /** Scanning data whose first line is `first` yields `first` as text, then the rest. */
  lemma TextLinesCons(data: seq<byte>, first: seq<byte>, tail: seq<byte>)
    requires ScanLines(data) == [first] + ScanLines(tail)
    ensures TextLines(data) == [Latin1(first)] + TextLines(tail)
  {
    assert ([first] + ScanLines(tail))[1..] == ScanLines(tail);
  }

  lemma {:induction false} ScanJoinedLines(ls: seq<string>)
    requires forall i :: 0 <= i < |ls| ==> PlainLine(ls[i])
    ensures TextLines(Utf8(JoinLines(ls))) == ls
  {
    if ls != [] {
      assert JoinLines(ls) == ls[0] + "\n" + JoinLines(ls[1..]);
      ScanPlainLineText(ls[0], JoinLines(ls[1..]));
      ScanJoinedLines(ls[1..]);
      assert ls == [ls[0]] + ls[1..];
    }
  }

  /** Scanning the text of a plain line, '\n' and more text yields the line, then the rest. */
  lemma ScanPlainLineText(l: string, rest: string)
    requires PlainLine(l)
    ensures TextLines(Utf8(l + "\n" + rest)) == [l] + TextLines(Utf8(rest))
  {
    Utf8Line(l, rest);
    ScanPlainLine(l, Utf8(rest));
    TextLinesCons(Utf8(l + "\n" + rest), Utf8(l), Utf8(rest));
    Latin1OfAscii(l);
  }
}
