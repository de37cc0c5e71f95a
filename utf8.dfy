/** Well-formed UTF-8 after the grammar of section 4 of RFC 3629, the check
    behind `String::from_utf8`, and `trim_end_matches` with a one-character
    pattern. A `String` is modelled as its UTF-8 bytes; a character as the
    bytes that encode it. */
module Utf8 {
  /** UTF8-tail = %x80-BF */
  predicate IsTail(b: bv8) {
    0x80 <= b <= 0xBF
  }

  /** UTF8-1 = %x00-7F */
  predicate IsChar1(c: seq<bv8>) {
    |c| == 1 && c[0] <= 0x7F
  }

  /** UTF8-2 = %xC2-DF UTF8-tail */
  predicate IsChar2(c: seq<bv8>) {
    |c| == 2 && 0xC2 <= c[0] <= 0xDF && IsTail(c[1])
  }

  /** UTF8-3 = %xE0 %xA0-BF UTF8-tail / %xE1-EC 2( UTF8-tail ) /
               %xED %x80-9F UTF8-tail / %xEE-EF 2( UTF8-tail ) */
  predicate IsChar3(c: seq<bv8>) {
    && |c| == 3
    && IsTail(c[2])
    && (|| (c[0] == 0xE0 && 0xA0 <= c[1] <= 0xBF)
        || (0xE1 <= c[0] <= 0xEC && IsTail(c[1]))
        || (c[0] == 0xED && 0x80 <= c[1] <= 0x9F)
        || (0xEE <= c[0] <= 0xEF && IsTail(c[1])))
  }

  /** UTF8-4 = %xF0 %x90-BF 2( UTF8-tail ) / %xF1-F3 3( UTF8-tail ) /
               %xF4 %x80-8F 2( UTF8-tail ) */
  predicate IsChar4(c: seq<bv8>) {
    && |c| == 4
    && IsTail(c[2])
    && IsTail(c[3])
    && (|| (c[0] == 0xF0 && 0x90 <= c[1] <= 0xBF)
        || (0xF1 <= c[0] <= 0xF3 && IsTail(c[1]))
        || (c[0] == 0xF4 && 0x80 <= c[1] <= 0x8F))
  }

  /** UTF8-char = UTF8-1 / UTF8-2 / UTF8-3 / UTF8-4 */
  predicate IsChar(c: seq<bv8>) {
    IsChar1(c) || IsChar2(c) || IsChar3(c) || IsChar4(c)
  }

  /** The encoding of U+0000. */
  const NUL: seq<bv8> := [0x00]

  /** Every byte after the first byte of a character is a continuation byte,
      so 0x00 occurs in a character only as the whole encoding of U+0000. */
  lemma CharShape(c: seq<bv8>)
    requires IsChar(c)
    ensures 1 <= |c| <= 4
    ensures forall i | 1 <= i < |c| :: IsTail(c[i])
    ensures 0x00 in c ==> c == NUL
  {
  }

  /** Length of the character the sequence starts with, or 0 when no
      prefix of the sequence is a character. */
  function CharWidth(s: seq<bv8>): (n: nat)
    ensures n <= |s| && n <= 4
    ensures n > 0 ==> IsChar(s[..n])
    ensures n == 0 <==> forall k | 0 <= k <= |s| :: !IsChar(s[..k])
    ensures forall k | 0 <= k <= |s| && IsChar(s[..k]) :: k == n
  {
    if 1 <= |s| && IsChar(s[..1]) then 1
    else if 2 <= |s| && IsChar(s[..2]) then 2
    else if 3 <= |s| && IsChar(s[..3]) then 3
    else if 4 <= |s| && IsChar(s[..4]) then 4
    else 0
  }

  /** UTF8-octets = *( UTF8-char ): the bytes split into characters. The
      first byte of a character fixes its length, so reading characters
      from the front is the only way to split. */
  predicate WellFormed(s: seq<bv8>)
    decreases |s|
  {
    s == [] || (CharWidth(s) > 0 && WellFormed(s[CharWidth(s)..]))
  }

  /** The bytes of a sequence of encoded characters, one after another. */
  function Flatten(cs: seq<seq<bv8>>): seq<bv8>
  {
    if cs == [] then [] else cs[0] + Flatten(cs[1..])
  }

  lemma {:induction false} FlattenAppend(a: seq<seq<bv8>>, b: seq<seq<bv8>>)
    ensures Flatten(a + b) == Flatten(a) + Flatten(b)
    decreases |a|
  {
    if a == [] {
      assert a + b == b;
    } else {
      assert (a + b)[1..] == a[1..] + b;
      FlattenAppend(a[1..], b);
    }
  }

  /** The characters of a well-formed sequence, each given by its bytes. */
  function Chars(s: seq<bv8>): (cs: seq<seq<bv8>>)
    requires WellFormed(s)
    ensures Flatten(cs) == s
    ensures forall i | 0 <= i < |cs| :: IsChar(cs[i])
    decreases |s|
  {
    if s == [] then []
    else
      var n := CharWidth(s);
      var cs := [s[..n]] + Chars(s[n..]);
      assert cs[1..] == Chars(s[n..]);
      cs
  }

  /** Encoding a sequence of characters gives well-formed bytes, and
      splitting those bytes gives back the same characters. */
  lemma {:induction false} CharsOfFlatten(cs: seq<seq<bv8>>)
    requires forall i | 0 <= i < |cs| :: IsChar(cs[i])
    ensures WellFormed(Flatten(cs))
    ensures Chars(Flatten(cs)) == cs
    decreases |cs|
  {
    if cs != [] {
      var s := Flatten(cs);
      var c := cs[0];
      assert s == c + Flatten(cs[1..]);
      assert s[..|c|] == c;
      assert CharWidth(s) == |c|;
      assert s[|c|..] == Flatten(cs[1..]);
      CharsOfFlatten(cs[1..]);
    }
  }

  /** Every element of the list is a character. */
  predicate AllChars(cs: seq<seq<bv8>>) {
    forall i | 0 <= i < |cs| :: IsChar(cs[i])
  }

  /** UTF8-octets = *( UTF8-char ): a byte sequence is well-formed exactly
      when it is the concatenation of some list of characters. */
  lemma WellFormedIffSplits(s: seq<bv8>)
    ensures WellFormed(s) <==> exists cs :: AllChars(cs) && Flatten(cs) == s
  {
    if exists cs :: AllChars(cs) && Flatten(cs) == s {
      var cs :| AllChars(cs) && Flatten(cs) == s;
      CharsOfFlatten(cs);
    }
    if WellFormed(s) {
      assert AllChars(Chars(s)) && Flatten(Chars(s)) == s;
    }
  }

  /** The grammar's `*( UTF8-char )` is closed under concatenation: two
      well-formed sequences concatenate to a well-formed sequence whose
      characters are those of the first followed by those of the second. */
  lemma ConcatWellFormed(a: seq<bv8>, b: seq<bv8>)
    requires WellFormed(a) && WellFormed(b)
    ensures WellFormed(a + b)
    ensures Chars(a + b) == Chars(a) + Chars(b)
  {
    var cs := Chars(a) + Chars(b);
    FlattenAppend(Chars(a), Chars(b));
    CharsOfFlatten(cs);
  }

  /** A well-formed sequence that ends in 0x00 ends in the character U+0000:
      dropping that byte leaves a well-formed sequence with one character less. */
  lemma DropTrailingNul(p: seq<bv8>)
    requires WellFormed(p + NUL)
    ensures WellFormed(p)
    ensures Chars(p + NUL) == Chars(p) + [NUL]
  {
    var cs := Chars(p + NUL);
    var n := |cs|;
    var init, last := cs[..n - 1], cs[n - 1];
    assert cs == init + [last];
    FlattenAppend(init, [last]);
    assert Flatten([last]) == last + Flatten([]);
    var q := Flatten(init) + last;
    assert q == p + NUL;
    CharShape(last);
    assert q[|q| - 1] == last[|last| - 1] == 0x00;
    assert last == NUL;
    assert Flatten(init) == q[..|p|] == p;
    CharsOfFlatten(init);
  }

  /** The last character of a well-formed sequence ends with its last byte. */
  lemma LastChar(s: seq<bv8>)
    requires WellFormed(s) && s != []
    ensures Chars(s) != []
    ensures Chars(s)[|Chars(s)| - 1] == NUL ==> s[|s| - 1] == 0x00
  {
  }

  /** `trim_end_matches(x)` for a single element `x`: the longest prefix
      that does not end in `x`. */
  function TrimEnd<T(==)>(s: seq<T>, x: T): (r: seq<T>)
    ensures r <= s
    ensures r == [] || r[|r| - 1] != x
    ensures forall i | |r| <= i < |s| :: s[i] == x
    decreases |s|
  {
    if |s| > 0 && s[|s| - 1] == x then TrimEnd(s[..|s| - 1], x) else s
  }

  /** The three properties of TrimEnd pin its result down. */
  lemma TrimEndUnique<T>(s: seq<T>, x: T, r: seq<T>)
    requires r <= s
    requires r == [] || r[|r| - 1] != x
    requires forall i | |r| <= i < |s| :: s[i] == x
    ensures r == TrimEnd(s, x)
  {
  }

  /** Trimming twice is trimming once. */
  lemma TrimEndIdempotent<T>(s: seq<T>, x: T)
    ensures TrimEnd(TrimEnd(s, x), x) == TrimEnd(s, x)
  {
  }

  /** Only trailing elements are removed: an `x` followed later by an
      element other than `x` is kept. */
  lemma TrimEndKeepsInner<T>(s: seq<T>, x: T, i: nat, j: nat)
    requires i < j < |s| && s[j] != x
    ensures i < |TrimEnd(s, x)| && TrimEnd(s, x)[i] == s[i]
  {
  }

  /** Trimming U+0000 characters off a well-formed string is dropping its
      trailing 0x00 bytes, and the result is still well-formed. */
  lemma {:induction false} TrimNulBytesTrimsNulChars(s: seq<bv8>)
    requires WellFormed(s)
    ensures WellFormed(TrimEnd(s, 0x00))
    ensures Chars(TrimEnd(s, 0x00)) == TrimEnd(Chars(s), NUL)
    decreases |s|
  {
    if |s| > 0 && s[|s| - 1] == 0x00 {
      var p := s[..|s| - 1];
      assert s == p + NUL;
      DropTrailingNul(p);
      var cs := Chars(p) + [NUL];
      assert cs[..|cs| - 1] == Chars(p);
      TrimNulBytesTrimsNulChars(p);
    } else if s != [] {
      LastChar(s);
    }
  }

  /** A sequence of ASCII bytes is well-formed, one character per byte. */
  lemma {:induction false} AsciiWellFormed(s: seq<bv8>)
    requires forall i | 0 <= i < |s| :: s[i] <= 0x7F
    ensures WellFormed(s)
    ensures |Chars(s)| == |s|
    decreases |s|
  {
    if s != [] {
      assert IsChar(s[..1]);
      AsciiWellFormed(s[1..]);
    }
  }
}
