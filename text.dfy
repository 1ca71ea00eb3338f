/** The string operations of Go's standard library that the transform relies
    on: strings.Trim with the cut set "_-", strings.ToLower (ASCII letters
    only), strings.HasSuffix, strings.Join, len() as a UTF-8 byte count,
    byte-bounded slicing, and sort.Strings with Go's byte-wise string order.
    A Dafny string is a sequence of Unicode scalar values, that is, of runes. */
module Text {

  // ---------------------------------------------------------------------------
  // strings.Trim(s, "_-")
  // ---------------------------------------------------------------------------

  /** The cut set "_-" used by every call to strings.Trim in the transform. */
  predicate InCutset(c: char) {
    c == '_' || c == '-'
  }

  /** strings.TrimLeft(s, "_-"): drops every leading cut-set character. */
  function TrimLeft(s: string): string {
    if s != [] && InCutset(s[0]) then TrimLeft(s[1..]) else s
  }

  /** What TrimLeft leaves is a suffix of s that does not start with a
      cut-set character, and everything it drops is in the cut set. */
  lemma {:induction false} TrimLeftShape(s: string)
    ensures var r := TrimLeft(s);
      && |r| <= |s| && r == s[|s| - |r|..]
      && (forall k :: 0 <= k < |s| - |r| ==> InCutset(s[k]))
      && (r != [] ==> !InCutset(r[0]))
  {
    if s != [] && InCutset(s[0]) {
      var t := s[1..];
      TrimLeftShape(t);
      var r := TrimLeft(t);
      assert TrimLeft(s) == r;
      assert s[|s| - |r|..] == t[|t| - |r|..];
      forall k | 0 <= k < |s| - |r| ensures InCutset(s[k]) {
        if k > 0 {
          assert s[k] == t[k - 1];
        }
      }
    }
  }

  /** strings.TrimRight(s, "_-"): drops every trailing cut-set character. */
  function TrimRight(s: string): string {
    if s != [] && InCutset(s[|s| - 1]) then TrimRight(s[..|s| - 1]) else s
  }

  /** What TrimRight leaves is a prefix of s that does not end with a
      cut-set character, and everything it drops is in the cut set. */
  lemma {:induction false} TrimRightShape(s: string)
    ensures var r := TrimRight(s);
      && |r| <= |s| && r == s[..|r|]
      && (forall k :: |r| <= k < |s| ==> InCutset(s[k]))
      && (r != [] ==> !InCutset(r[|r| - 1]))
  {
    if s != [] && InCutset(s[|s| - 1]) {
      TrimRightShape(s[..|s| - 1]);
    }
  }

  /** strings.Trim(s, "_-"). */
  function Trim(s: string): string {
    TrimRight(TrimLeft(s))
  }

  /** The trimmed string is the longest infix of s that neither starts nor
      ends with '_' or '-', cut out of s by removing only cut-set characters. */
  lemma TrimShape(s: string)
    ensures var r := Trim(s);
      && (r == [] || (!InCutset(r[0]) && !InCutset(r[|r| - 1])))
      && |r| <= |s|
      && TrimmedAt(s, r, |s| - |TrimLeft(s)|)
  {
    var l := TrimLeft(s);
    TrimLeftShape(s);
    TrimRightShape(l);
    var r := TrimRight(l);
    if r != [] {
      assert r[0] == l[0];
    }
  }

  /** r is s[i..i+|r|] and everything outside that window is in the cut set. */
  ghost predicate TrimmedAt(s: string, r: string, i: int) {
    && 0 <= i <= |s| - |r|
    && r == s[i..i + |r|]
    && (forall k :: 0 <= k < i ==> InCutset(s[k]))
    && (forall k :: i + |r| <= k < |s| ==> InCutset(s[k]))
  }

  /** Trimming twice is trimming once. */
  lemma TrimIdempotent(s: string)
    ensures Trim(Trim(s)) == Trim(s)
  {
    var t := Trim(s);
    TrimShape(s);
    assert TrimLeft(t) == t;
    assert TrimRight(t) == t;
  }

  // ---------------------------------------------------------------------------
  // strings.ToLower, strings.HasSuffix, strings.TrimSuffix, strings.Join
  // ---------------------------------------------------------------------------

  function LowerChar(c: char): char {
    if 'A' <= c <= 'Z' then (c as int + 32) as char else c
  }

  /** strings.ToLower restricted to ASCII: every upper-case ASCII letter is
      replaced by its lower-case form, every other rune is kept. */
  function Lower(s: string): string {
    if s == [] then [] else Lower(s[..|s| - 1]) + [LowerChar(s[|s| - 1])]
  }

  /** Lower keeps the length and maps every rune by itself. */
  lemma {:induction false} LowerShape(s: string)
    ensures |Lower(s)| == |s|
    ensures forall k :: 0 <= k < |s| ==> Lower(s)[k] == LowerChar(s[k])
  {
    if s != [] {
      LowerShape(s[..|s| - 1]);
    }
  }

  predicate HasSuffix(s: string, suffix: string) {
    |suffix| <= |s| && s[|s| - |suffix|..] == suffix
  }

  /** strings.TrimSuffix, applied only where the suffix is present. */
  function TrimSuffix(s: string, suffix: string): (r: string)
    requires HasSuffix(s, suffix)
    ensures r + suffix == s
  {
    s[..|s| - |suffix|]
  }

  /** strings.Join(parts, sep). */
  function Join(parts: seq<string>, sep: string): string
  {
    if |parts| == 0 then ""
    else if |parts| == 1 then parts[0]
    else parts[0] + sep + Join(parts[1..], sep)
  }

  // ---------------------------------------------------------------------------
  // len(s) and s[0:n] on Go strings, which count UTF-8 bytes
  // ---------------------------------------------------------------------------

  /** The number of bytes of the UTF-8 encoding of one rune. */
  function RuneLen(c: char): nat {
    if c as int < 0x80 then 1
    else if c as int < 0x800 then 2
    else if c as int < 0x10000 then 3
    else 4
  }

  /** len(s) in Go: the length of the UTF-8 encoding of s. */
  function Utf8Len(s: string): nat
  {
    if s == [] then 0 else Utf8Len(s[..|s| - 1]) + RuneLen(s[|s| - 1])
  }

  /** Every rune takes at least one byte. */
  lemma {:induction false} Utf8LenAtLeastRunes(s: string)
    ensures |s| <= Utf8Len(s)
  {
    if s != [] {
      Utf8LenAtLeastRunes(s[..|s| - 1]);
    }
  }

  /** A Go string of byte length 1 is exactly a single ASCII rune. */
  lemma Utf8LenOne(s: string)
    ensures Utf8Len(s) == 1 <==> |s| == 1 && s[0] as int < 0x80
  {
    if s != [] {
      Utf8LenAtLeastRunes(s[..|s| - 1]);
    }
  }

  /** s[0:n] for a string longer than n bytes: the longest run of whole runes
      from the start of s that fits in n bytes. */
  function BytePrefix(s: string, n: nat): (r: string)
    ensures r <= s
    ensures Utf8Len(r) <= n
    ensures Utf8Len(s) <= n ==> r == s
  {
    if Utf8Len(s) <= n then s else BytePrefix(s[..|s| - 1], n)
  }

  /** Each rune after the first j adds at least one byte. */
  lemma {:induction false} Utf8LenGrows(s: string, j: nat)
    requires j <= |s|
    ensures Utf8Len(s[..j]) + (|s| - j) <= Utf8Len(s)
  {
    if j < |s| {
      Utf8LenGrows(s[..|s| - 1], j);
      assert s[..|s| - 1][..j] == s[..j];
    } else {
      assert s[..j] == s;
    }
  }

  /** When the first k runes of s take exactly n bytes, the cut s[0:n] falls
      between runes and BytePrefix is those k runes, byte for byte Go's
      result. */
  lemma {:induction false} BytePrefixOnBoundary(s: string, n: nat, k: nat)
    requires k <= |s| && Utf8Len(s[..k]) == n
    ensures BytePrefix(s, n) == s[..k]
  {
    Utf8LenGrows(s, k);
    assert s[..|s|] == s;
    if Utf8Len(s) <= n {
      assert s[..k] == s;
    } else {
      var t := s[..|s| - 1];
      assert t[..k] == s[..k];
      BytePrefixOnBoundary(t, n, k);
    }
  }

  /** A string of ASCII runes takes one byte per rune. */
  lemma {:induction false} Utf8LenAscii(s: string)
    requires forall i :: 0 <= i < |s| ==> s[i] as int < 0x80
    ensures Utf8Len(s) == |s|
  {
    if s != [] {
      Utf8LenAscii(s[..|s| - 1]);
    }
  }

  /** On an ASCII string, BytePrefix is Go's s[0:n]. */
  lemma BytePrefixAscii(s: string, n: nat)
    requires forall i :: 0 <= i < |s| ==> s[i] as int < 0x80
    ensures BytePrefix(s, n) == if n < |s| then s[..n] else s
  {
    var k := if n < |s| then n else |s|;
    Utf8LenAscii(s[..k]);
    if n < |s| {
      BytePrefixOnBoundary(s, n, n);
    } else {
      Utf8LenAscii(s);
    }
  }

  // ---------------------------------------------------------------------------
  // sort.Strings
  // ---------------------------------------------------------------------------

  /** Go orders strings byte-wise; UTF-8 preserves the order of code points,
      so this is the lexicographic order on runes. */
  predicate LexLe(a: string, b: string)
    decreases |a|
  {
    a == [] || (b != [] && (a[0] < b[0] || (a[0] == b[0] && LexLe(a[1..], b[1..]))))
  }

  lemma {:induction false} LexLeTotal(a: string, b: string)
    ensures LexLe(a, b) || LexLe(b, a)
    decreases |a|
  {
    if a != [] && b != [] && a[0] == b[0] {
      LexLeTotal(a[1..], b[1..]);
    }
  }

  lemma {:induction false} LexLeAntisymmetric(a: string, b: string)
    requires LexLe(a, b) && LexLe(b, a)
    ensures a == b
    decreases |a|
  {
    if a != [] {
      LexLeAntisymmetric(a[1..], b[1..]);
      assert a == [a[0]] + a[1..];
      assert b == [b[0]] + b[1..];
    }
  }

  lemma {:induction false} LexLeTransitive(a: string, b: string, c: string)
    requires LexLe(a, b) && LexLe(b, c)
    ensures LexLe(a, c)
    decreases |a|
  {
    if a != [] && a[0] == b[0] && b[0] == c[0] {
      LexLeTransitive(a[1..], b[1..], c[1..]);
    }
  }

  predicate SortedStrings(s: seq<string>) {
    forall i, j :: 0 <= i < j < |s| ==> LexLe(s[i], s[j])
  }

  /** Inserts x into a sorted sequence. */
  function Insert(x: string, s: seq<string>): (r: seq<string>)
    requires SortedStrings(s)
    ensures SortedStrings(r)
    ensures multiset(r) == multiset(s) + multiset{x}
    ensures |r| == |s| + 1
  {
    if s == [] then [x]
    else if LexLe(x, s[0]) then
      forall j | 0 <= j < |s| ensures LexLe(x, s[j]) {
        if j > 0 { LexLeTransitive(x, s[0], s[j]); }
      }
      [x] + s
    else
      LexLeTotal(x, s[0]);
      var t := Insert(x, s[1..]);
      assert s == [s[0]] + s[1..];
      assert forall k :: 0 <= k < |t| ==> LexLe(s[0], t[k]) by {
        forall k | 0 <= k < |t| ensures LexLe(s[0], t[k]) {
          assert t[k] in multiset(t);
          assert t[k] == x || t[k] in multiset(s[1..]);
          if t[k] != x {
            var j :| 0 <= j < |s[1..]| && s[1..][j] == t[k];
            assert s[j + 1] == t[k];
          }
        }
      }
      [s[0]] + t
  }

  /** sort.Strings, as an insertion sort on values. */
  function SortStrings(s: seq<string>): (r: seq<string>)
    ensures SortedStrings(r)
    ensures multiset(r) == multiset(s)
    ensures |r| == |s|
  {
    if s == [] then []
    else
      assert s == [s[0]] + s[1..];
      Insert(s[0], SortStrings(s[1..]))
  }

  lemma SortedTail(s: seq<string>)
    requires s != [] && SortedStrings(s)
    ensures SortedStrings(s[1..])
  {
    forall i, j | 0 <= i < j < |s| - 1 ensures LexLe(s[1..][i], s[1..][j]) {
      assert s[1..][i] == s[i + 1] && s[1..][j] == s[j + 1];
    }
  }

  /** A sorted sequence is determined by its multiset of elements. */
  lemma {:induction false} SortedUnique(a: seq<string>, b: seq<string>)
    requires SortedStrings(a) && SortedStrings(b)
    requires multiset(a) == multiset(b)
    ensures a == b
    decreases |a|
  {
    if a != [] {
      assert |b| == |a| by { assert |multiset(a)| == |multiset(b)|; }
      // a[0] and b[0] are both least elements of the common multiset
      assert a[0] in multiset(b);
      var j :| 0 <= j < |b| && b[j] == a[0];
      assert b[0] in multiset(a);
      var i :| 0 <= i < |a| && a[i] == b[0];
      LexLeTotal(a[0], a[0]);
      assert LexLe(b[0], a[0]) by { if j > 0 { assert LexLe(b[0], b[j]); } }
      assert LexLe(a[0], b[0]) by { if i > 0 { assert LexLe(a[0], a[i]); } }
      LexLeAntisymmetric(a[0], b[0]);
      MultisetTail(a);
      MultisetTail(b);
      SortedTail(a);
      SortedTail(b);
      SortedUnique(a[1..], b[1..]);
    }
  }

  lemma MultisetTail(s: seq<string>)
    requires s != []
    ensures multiset(s[1..]) == multiset(s) - multiset{s[0]}
  {
    assert s == [s[0]] + s[1..];
  }

  /** Two lists are equal after sorting exactly when they hold the same
      elements with the same multiplicities. */
  lemma SortedEqualIffSameMultiset(a: seq<string>, b: seq<string>)
    ensures SortStrings(a) == SortStrings(b) <==> multiset(a) == multiset(b)
  {
    if multiset(a) == multiset(b) {
      SortedUnique(SortStrings(a), SortStrings(b));
    }
  }
}
