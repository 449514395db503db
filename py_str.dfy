/** The few Python string operations the trigger utility relies on:
    `str.strip()`, `s.split(sep, 1)`, `sep in s` and `str.upper()`, each
    restricted to ASCII characters. */
module PyStr {
  import opened Wrappers

  /** The characters `str.strip()` removes, restricted to ASCII: those for
      which Python's `str.isspace()` holds, namely tab, line feed, vertical
      tab, form feed and carriage return (code points 9 to 13), the four
      information separators (28 to 31) and the space (32). */
  predicate IsSpace(c: char)
  {
    9 <= c as int <= 13 || 28 <= c as int <= 32
  }

  ghost predicate AllSpace(s: string)
  {
    forall i :: 0 <= i < |s| ==> IsSpace(s[i])
  }

  /** Neither starts nor ends with whitespace. */
  predicate Trimmed(s: string)
  {
    s == [] || (!IsSpace(s[0]) && !IsSpace(s[|s| - 1]))
  }

  /** How many whitespace characters `s` starts with. */
  function LeadingSpace(s: string): (n: nat)
    ensures n <= |s|
    ensures forall i :: 0 <= i < n ==> IsSpace(s[i])
    ensures n == |s| || !IsSpace(s[n])
  {
    if s != [] && IsSpace(s[0]) then
      1 + LeadingSpace(s[1..])
    else
      0
  }

  /** How many whitespace characters `s` ends with. */
  function TrailingSpace(s: string): (n: nat)
    ensures n <= |s|
    ensures forall i :: |s| - n <= i < |s| ==> IsSpace(s[i])
    ensures n == |s| || !IsSpace(s[|s| - n - 1])
  {
    if s != [] && IsSpace(s[|s| - 1]) then
      1 + TrailingSpace(s[..|s| - 1])
    else
      0
  }

  /** `s.strip()`: the leading whitespace is dropped, then the trailing
      whitespace of what is left. */
  function Strip(s: string): (r: string)
    ensures Trimmed(r) && |r| <= |s|
  {
    var t := s[LeadingSpace(s)..];
    t[..|t| - TrailingSpace(t)]
  }

  lemma PrefixOfSuffix(s: string, lo: nat, k: nat)
    requires lo + k <= |s|
    ensures s[lo..][..k] == s[lo..lo + k]
  {
  }

  /** Strip keeps the slice of `s` that starts after the leading whitespace. */
  lemma StripSlice(s: string)
    ensures LeadingSpace(s) + |Strip(s)| <= |s|
    ensures Strip(s) == s[LeadingSpace(s)..LeadingSpace(s) + |Strip(s)|]
  {
    var lo := LeadingSpace(s);
    var k := |s[lo..]| - TrailingSpace(s[lo..]);
    PrefixOfSuffix(s, lo, k);
  }

  /** Everything after the slice Strip keeps is whitespace. */
  lemma StripDropsTrailingSpace(s: string)
    ensures forall i :: LeadingSpace(s) + |Strip(s)| <= i < |s| ==> IsSpace(s[i])
  {
    var lo := LeadingSpace(s);
    var t := s[lo..];
    forall i | lo + |Strip(s)| <= i < |s|
      ensures IsSpace(s[i])
    {
      assert s[i] == t[i - lo];
    }
  }

  /** What Strip keeps is one slice of `s`, and what it drops on either side
      is whitespace. */
  lemma StripIsSlice(s: string)
    ensures var lo := LeadingSpace(s);
            && lo + |Strip(s)| <= |s| && Strip(s) == s[lo..lo + |Strip(s)|]
            && (forall i :: 0 <= i < lo ==> IsSpace(s[i]))
            && (forall i :: lo + |Strip(s)| <= i < |s| ==> IsSpace(s[i]))
  {
    StripSlice(s);
    StripDropsTrailingSpace(s);
  }

  /** A character absent from `s` is absent from `Strip(s)`. */
  lemma StripKeepsOut(s: string, c: char)
    requires c !in s
    ensures c !in Strip(s)
  {
  }

  lemma {:induction false} LeadingSpaceOfPadded(a: string, t: string)
    requires AllSpace(a)
    ensures LeadingSpace(a + t) == |a| + LeadingSpace(t)
  {
    if a != [] {
      assert IsSpace(a[0]);
      assert (a + t)[0] == a[0] && (a + t)[1..] == a[1..] + t;
      assert AllSpace(a[1..]);
      LeadingSpaceOfPadded(a[1..], t);
    } else {
      assert a + t == t;
    }
  }

  lemma {:induction false} TrailingSpaceOfPadded(t: string, b: string)
    requires AllSpace(b)
    ensures TrailingSpace(t + b) == TrailingSpace(t) + |b|
  {
    if b != [] {
      assert (t + b)[..|t + b| - 1] == t + b[..|b| - 1];
      TrailingSpaceOfPadded(t, b[..|b| - 1]);
    } else {
      assert t + b == t;
    }
  }

  /** Strip is determined by its contract: whatever whitespace surrounds a
      trimmed string, stripping gives that string back. */
  lemma {:induction false} StripPadded(a: string, m: string, b: string)
    requires AllSpace(a) && AllSpace(b) && Trimmed(m)
    ensures Strip(a + m + b) == m
  {
    var s := a + m + b;
    assert s == a + (m + b);
    LeadingSpaceOfPadded(a, m + b);
    assert s[|a|..] == m + b;
    if m == [] {
      assert m + b == [] + b;
      LeadingSpaceOfPadded(b, []);
      assert b + [] == b;
    } else {
      assert (m + b)[0] == m[0];
      assert TrailingSpace(m) == 0;
      TrailingSpaceOfPadded(m, b);
      PrefixOfSuffix(s, |a|, |m|);
      assert s[|a|..|a| + |m|] == m;
    }
  }

  lemma StripIdempotent(s: string)
    ensures Strip(Strip(s)) == Strip(s)
  {
  }

  /** The position of the first occurrence of `c` in `s`, if any. */
  function Find(s: string, c: char): (r: Option<nat>)
    ensures r.None? <==> c !in s
    ensures r.Some? ==> r.value < |s| && s[r.value] == c && c !in s[..r.value]
  {
    if s == [] then None
    else if s[0] == c then Some(0)
    else match Find(s[1..], c)
      case None => None
      case Some(i) =>
        assert s[..i + 1] == [s[0]] + s[1..][..i];
        Some(i + 1)
  }

  /** `s.split(c, 1)`: `None` when `c` does not occur (Python then returns a
      one-element list), otherwise the text before the first `c` and
      everything after it. */
  function SplitOnce(s: string, c: char): (r: Option<(string, string)>)
    ensures r.None? <==> c !in s
    ensures r.Some? ==> s == r.value.0 + [c] + r.value.1 && c !in r.value.0
  {
    match Find(s, c)
    case None => None
    case Some(i) =>
      assert s == s[..i] + [c] + s[i + 1..];
      Some((s[..i], s[i + 1..]))
  }

  lemma {:induction false} FindAfterHead(head: string, c: char, tail: string)
    requires c !in head
    ensures Find(head + [c] + tail, c) == Some(|head|)
  {
    if head != [] {
      assert (head + [c] + tail)[1..] == head[1..] + [c] + tail;
      FindAfterHead(head[1..], c, tail);
    }
  }

  /** Joining with a separator that does not occur in the head, then
      splitting once, gives back head and tail, whatever the tail holds. */
  lemma SplitOnceJoin(head: string, c: char, tail: string)
    requires c !in head
    ensures SplitOnce(head + [c] + tail, c) == Some((head, tail))
  {
    var s := head + [c] + tail;
    FindAfterHead(head, c, tail);
    var i := |head|;
    assert s[..i] == head;
    assert s[i + 1..] == tail;
  }

  predicate IsLower(c: char)
  {
    'a' <= c <= 'z'
  }

  function UpperChar(c: char): char
  {
    if IsLower(c) then (c as int - 32) as char else c
  }

  /** `s.upper()` on ASCII: lower-case letters become upper-case, every other
      character stays. */
  function Upper(s: string): (r: string)
    ensures |r| == |s|
    ensures forall i :: 0 <= i < |r| ==> !IsLower(r[i])
    ensures forall i :: 0 <= i < |s| && !IsLower(s[i]) ==> r[i] == s[i]
    ensures forall i :: 0 <= i < |s| && IsLower(s[i]) ==> r[i] as int == s[i] as int - 32
  {
    seq(|s|, i requires 0 <= i < |s| => UpperChar(s[i]))
  }
}
