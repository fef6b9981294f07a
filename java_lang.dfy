/** The parts of the Java platform the core leans on, written out so that the
    model does not depend on anything it cannot see: the int range,
    Integer.parseInt, String.valueOf, String.split on one character,
    String.trim, String.replaceAll with a pattern that is its own literal text,
    and the big-endian reads of java.nio.ByteBuffer. */
module JavaLang {
  import opened Wrappers

  /** A byte as ByteArrayInputStream.read() hands it out: 0 to 255. */
  type byte = b: int | 0 <= b < 256

  const INT_MIN: int := -0x8000_0000
  const INT_MAX: int := 0x7FFF_FFFF

  /** x fits a Java int. */
  predicate IsInt(x: int) { INT_MIN <= x <= INT_MAX }

  /** A String reference as string concatenation writes it: "null" for null. */
  function Str(s: Option<string>): (t: string)
    ensures s.Some? ==> t == s.value
  {
    if s.None? then "null" else s.value
  }

  // ---------------------------------------------------------------------
  // Decimal text

  predicate IsDigit(c: char) { '0' <= c <= '9' }

  predicate AllDigits(s: string) { forall i :: 0 <= i < |s| ==> IsDigit(s[i]) }

  function DigitChar(d: nat): (c: char)
    requires d < 10
    ensures IsDigit(c)
  {
    (48 + d) as char
  }

  function DigitValue(c: char): nat
    requires IsDigit(c)
  {
    c as int - 48
  }

  /** The decimal digits of n, most significant first, without leading zeros. */
  function Digits(n: nat): (s: string)
    ensures |s| > 0 && AllDigits(s)
    ensures n > 0 ==> s[0] != '0'
  {
    if n < 10 then [DigitChar(n)] else Digits(n / 10) + [DigitChar(n % 10)]
  }

  /** The number a string of decimal digits denotes. */
  function DigitsValue(s: string): nat
    requires AllDigits(s)
  {
    if s == [] then 0 else DigitsValue(s[..|s| - 1]) * 10 + DigitValue(s[|s| - 1])
  }

  lemma {:induction false} DigitsRoundTrip(n: nat)
    ensures DigitsValue(Digits(n)) == n
  {
    if n >= 10 {
      DigitsRoundTrip(n / 10);
      var s := Digits(n);
      assert s[..|s| - 1] == Digits(n / 10);
    }
  }

  /** String.valueOf of an int or a long: a '-' in front of the digits of a
      negative value. */
  function LongToString(n: int): (s: string)
    ensures |s| > 0 && ',' !in s
    ensures n < 0 <==> s[0] == '-'
  {
    if n < 0 then "-" + Digits(-n) else Digits(n)
  }

  /** Integer.parseInt(s): an optional '-' or '+' and then at least one decimal
      digit, with a value that fits an int. None is the NumberFormatException. */
  function ParseInt(s: string): (r: Option<int>)
    ensures r.Some? ==> IsInt(r.value) && s != []
  {
    var body := if |s| > 0 && (s[0] == '-' || s[0] == '+') then s[1..] else s;
    if body == [] || !AllDigits(body) then None
    else
      var v: int := if s[0] == '-' then 0 - DigitsValue(body) else DigitsValue(body);
      if IsInt(v) then Some(v) else None
  }

  /** Integer.parseInt reads back what String.valueOf wrote exactly when the
      value fits an int. */
  lemma ParseIntOfLongToString(n: int)
    ensures ParseInt(LongToString(n)) == if IsInt(n) then Some(n) else None
  {
    var s := LongToString(n);
    if n < 0 {
      assert s[1..] == Digits(-n);
      DigitsRoundTrip(-n);
    } else {
      DigitsRoundTrip(n);
    }
  }

  // ---------------------------------------------------------------------
  // String.split

  /** The pieces of s between the occurrences of c, in order, empty pieces
      included: always one more piece than there are occurrences. */
  function Pieces(s: string, c: char): (parts: seq<string>)
    ensures |parts| > 0
  {
    if s == [] then [""]
    else
      var rest := Pieces(s[1..], c);
      if s[0] == c then [""] + rest else [[s[0]] + rest[0]] + rest[1..]
  }

  lemma {:induction false} PiecesWithout(s: string, c: char)
    requires c !in s
    ensures Pieces(s, c) == [s]
  {
    if s != [] {
      PiecesWithout(s[1..], c);
      assert [s[0]] + s[1..] == s;
    }
  }

  lemma {:induction false} PiecesAfter(x: string, c: char, y: string)
    requires c !in x
    ensures Pieces(x + [c] + y, c) == [x] + Pieces(y, c)
  {
    if x == [] {
      assert x + [c] + y == [c] + y;
      assert ([c] + y)[1..] == y;
    } else {
      PiecesAfter(x[1..], c, y);
      assert (x + [c] + y)[1..] == x[1..] + [c] + y;
      assert [x[0]] + x[1..] == x;
    }
  }

  function DropTrailingEmpty(parts: seq<string>): seq<string>
  {
    if parts != [] && parts[|parts| - 1] == "" then DropTrailingEmpty(parts[..|parts| - 1]) else parts
  }

  /** s.split(String.valueOf(c)) for a c that is no regular-expression
      metacharacter: the whole of s when c does not occur in it, otherwise its
      pieces with the trailing empty ones removed (limit 0). */
  function Split(s: string, c: char): seq<string>
  {
    if c !in s then [s] else DropTrailingEmpty(Pieces(s, c))
  }

  /** Three comma-free texts joined by c split back into exactly those three,
      provided the last is not empty (split would drop it). */
  lemma SplitJoined(a: string, b: string, t: string, c: char)
    requires c !in a && c !in b && c !in t && t != ""
    ensures Split(a + [c] + b + [c] + t, c) == [a, b, t]
  {
    var s := a + [c] + b + [c] + t;
    assert s[|a|] == c;
    assert s == a + [c] + (b + [c] + t);
    PiecesAfter(a, c, b + [c] + t);
    PiecesAfter(b, c, t);
    PiecesWithout(t, c);
    assert Pieces(s, c) == [a, b, t];
  }

  // ---------------------------------------------------------------------
  // String.trim, String.endsWith

  function TrimStart(s: string): (r: string)
    ensures r != [] ==> r[0] > ' '
    ensures |r| <= |s| && r == s[|s| - |r|..]
  {
    if s != [] && s[0] <= ' ' then TrimStart(s[1..]) else s
  }

  function TrimEnd(s: string): (r: string)
    ensures r != [] ==> r[|r| - 1] > ' '
    ensures |r| <= |s| && r == s[..|r|]
  {
    if s != [] && s[|s| - 1] <= ' ' then TrimEnd(s[..|s| - 1]) else s
  }

  /** String.trim(): every leading and trailing character at or below U+0020
      removed; what is left, if anything, starts and ends above U+0020. */
  function Trim(s: string): (r: string)
    ensures r != [] ==> r[0] > ' ' && r[|r| - 1] > ' '
  {
    var t := TrimStart(s);
    var r := TrimEnd(t);
    assert r != [] ==> r[0] == t[0];
    r
  }

  predicate EndsWith(s: string, suffix: string)
  {
    |suffix| <= |s| && s[|s| - |suffix|..] == suffix
  }

  // ---------------------------------------------------------------------
  // String.replaceAll with a pattern that only matches its own text

  /** pat occurs in s starting at index i. */
  predicate MatchAt(pat: string, s: string, i: int)
  {
    0 <= i <= |s| - |pat| && s[i..i + |pat|] == pat
  }

  /** pat occurs somewhere in s. */
  predicate Occurs(pat: string, s: string)
  {
    exists i :: 0 <= i <= |s| - |pat| && MatchAt(pat, s, i)
  }

  /** s.replaceAll(pat, rep) where the regular expression pat matches exactly
      its own text: scanning from the left, each occurrence that does not
      overlap an earlier replaced one becomes rep. */
  function ReplaceAll(s: string, pat: string, rep: string): string
    requires pat != []
    decreases |s|
  {
    if |s| < |pat| then s
    else if s[..|pat|] == pat then rep + ReplaceAll(s[|pat|..], pat, rep)
    else [s[0]] + ReplaceAll(s[1..], pat, rep)
  }

  /** Where pat does not occur, nothing is replaced. */
  lemma {:induction false} ReplaceAllWithoutMatch(s: string, pat: string, rep: string)
    requires pat != [] && !Occurs(pat, s)
    ensures ReplaceAll(s, pat, rep) == s
  {
    if |s| >= |pat| {
      assert !MatchAt(pat, s, 0);
      assert s[0..|pat|] == s[..|pat|];
      if Occurs(pat, s[1..]) {
        var i :| 0 <= i <= |s[1..]| - |pat| && MatchAt(pat, s[1..], i);
        assert s[1..][i..i + |pat|] == pat;
        assert s[i + 1..i + 1 + |pat|] == pat;
        assert MatchAt(pat, s, i + 1);
        assert false;
      }
      ReplaceAllWithoutMatch(s[1..], pat, rep);
      assert [s[0]] + s[1..] == s;
    }
  }

  /** A prefix of the replaced text is already a prefix of the original,
      unless it holds rep's first character. */
  lemma {:induction false} ReplaceAllKeepsPrefix(t: string, pat: string, rep: string, w: string)
    requires pat != [] && rep != []
    requires |w| <= |ReplaceAll(t, pat, rep)| && ReplaceAll(t, pat, rep)[..|w|] == w
    ensures rep[0] in w || (|w| <= |t| && t[..|w|] == w)
    decreases |t|
  {
    if w != [] && |t| >= |pat| {
      if t[..|pat|] == pat {
        assert w[0] == rep[0];
      } else {
        var r := ReplaceAll(t[1..], pat, rep);
        assert ReplaceAll(t, pat, rep) == [t[0]] + r;
        assert ([t[0]] + r)[..|w|] == [t[0]] + r[..|w| - 1];
        assert r[..|w| - 1] == w[1..];
        ReplaceAllKeepsPrefix(t[1..], pat, rep, w[1..]);
        if rep[0] in w[1..] {
          assert rep[0] in w;
        } else {
          assert t[..|w|] == [t[0]] + t[1..][..|w| - 1];
        }
      }
    }
  }

  /** A match starts with the first character of pat. */
  lemma MatchHead(pat: string, s: string, i: int)
    requires pat != [] && MatchAt(pat, s, i)
    ensures s[i] == pat[0]
  {
    assert s[i..i + |pat|][0] == s[i];
  }

  /** A match past a prefix is a match in what follows the prefix. */
  lemma MatchShift(pat: string, x: string, t: string, i: int)
    requires |x| <= i && MatchAt(pat, x + t, i)
    ensures MatchAt(pat, t, i - |x|)
  {
    assert (x + t)[i..i + |pat|] == t[i - |x|..i - |x| + |pat|];
  }

  /** Putting rep, none of whose characters is in pat, in front of a text
      without pat gives a text without pat. */
  lemma NoMatchAfterReplacement(pat: string, rep: string, tail: string)
    requires pat != [] && rep != []
    requires forall k :: 0 <= k < |rep| ==> rep[k] !in pat
    requires !Occurs(pat, tail)
    ensures !Occurs(pat, rep + tail)
  {
    var r := rep + tail;
    if Occurs(pat, r) {
      var i :| 0 <= i <= |r| - |pat| && MatchAt(pat, r, i);
      assert r[i..i + |pat|] == pat;
      if i < |rep| {
        MatchHead(pat, r, i);
        assert false;
      } else {
        MatchShift(pat, rep, tail, i);
        assert false;
      }
    }
  }

  /** The replaced rest, behind a first character that does not start pat,
      cannot complete pat at the front. */
  lemma NoMatchAtHead(s: string, pat: string, rep: string, tail: string)
    requires pat != [] && rep != [] && rep[0] !in pat
    requires |s| >= |pat| && s[..|pat|] != pat
    requires tail == ReplaceAll(s[1..], pat, rep)
    ensures !MatchAt(pat, [s[0]] + tail, 0)
  {
    if MatchAt(pat, [s[0]] + tail, 0) {
      var w := pat[1..];
      assert ([s[0]] + tail)[..|pat|] == pat;
      assert tail[..|w|] == w;
      ReplaceAllKeepsPrefix(s[1..], pat, rep, w);
      assert false;
    }
  }

  /** Keeping a first character that does not start pat in front of the
      replaced rest gives a text without pat, when the replaced rest has none. */
  lemma NoMatchAfterKept(s: string, pat: string, rep: string, tail: string)
    requires pat != [] && rep != [] && rep[0] !in pat
    requires |s| >= |pat| && s[..|pat|] != pat
    requires tail == ReplaceAll(s[1..], pat, rep) && !Occurs(pat, tail)
    ensures !Occurs(pat, [s[0]] + tail)
  {
    var r := [s[0]] + tail;
    if Occurs(pat, r) {
      var i :| 0 <= i <= |r| - |pat| && MatchAt(pat, r, i);
      if i == 0 {
        NoMatchAtHead(s, pat, rep, tail);
        assert false;
      } else {
        MatchShift(pat, [s[0]], tail, i);
        assert false;
      }
    }
  }

  /** When no character of rep is a character of pat, pat no longer occurs
      anywhere in the result. */
  lemma {:induction false} ReplaceAllRemovesEvery(s: string, pat: string, rep: string)
    requires pat != [] && rep != []
    requires forall k :: 0 <= k < |rep| ==> rep[k] !in pat
    ensures !Occurs(pat, ReplaceAll(s, pat, rep))
    decreases |s|
  {
    if |s| < |pat| {
    } else if s[..|pat|] == pat {
      ReplaceAllRemovesEvery(s[|pat|..], pat, rep);
      NoMatchAfterReplacement(pat, rep, ReplaceAll(s[|pat|..], pat, rep));
    } else {
      ReplaceAllRemovesEvery(s[1..], pat, rep);
      NoMatchAfterKept(s, pat, rep, ReplaceAll(s[1..], pat, rep));
    }
  }

  // ---------------------------------------------------------------------
  // java.nio.ByteBuffer in its default big-endian order

  /** getShort(): two bytes, most significant first, as a signed 16-bit value. */
  function GetShort(hi: byte, lo: byte): (v: int)
    ensures -0x8000 <= v < 0x8000
    ensures (v - (hi * 0x100 + lo)) % 0x1_0000 == 0
  {
    var u := hi as int * 0x100 + lo;
    if u < 0x8000 then u else u - 0x1_0000
  }

  /** The unsigned value of four bytes, most significant first. */
  function Unsigned32(b: seq<byte>): (u: nat)
    requires |b| == 4
    ensures u < 0x1_0000_0000
  {
    ((b[0] as int * 0x100 + b[1]) * 0x100 + b[2]) * 0x100 + b[3]
  }

  /** getInt(): four bytes, most significant first, as a signed 32-bit value. */
  function GetInt(b: seq<byte>): (v: int)
    requires |b| == 4
    ensures IsInt(v)
    ensures v == Unsigned32(b) || v == Unsigned32(b) - 0x1_0000_0000
  {
    var u := Unsigned32(b);
    if u < 0x8000_0000 then u else u - 0x1_0000_0000
  }

  /** getShort() & 0xFFFF reads the same two bytes unsigned. */
  lemma Low16GetShort(hi: byte, lo: byte)
    ensures Low16(GetShort(hi, lo)) == hi as int * 0x100 + lo
  {
  }

  /** x & 0xFFFF on a Java int: the low 16 bits of its two's-complement form. */
  function Low16(x: int): (m: int)
    ensures 0 <= m < 0x1_0000
  {
    x % 0x1_0000
  }
}
