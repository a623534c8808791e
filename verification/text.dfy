/** The Python string operations the scripts use: `str.split(". ")`, `str.strip()` with no
    argument, and the join that undoes a split. */
module Text {
  import opened Wrappers

  /** Python 3 `str.isspace` for one code point: the characters `str.strip()` removes. */
  predicate IsSpace(c: char)
    ensures c == ' ' || c == '\t' || c == '\n' || c == '\r' ==> IsSpace(c)
    ensures IsSpace(c) ==> c != '.' && c as int <= 0x3000
  {
    var n := c as int;
    (0x09 <= n <= 0x0D) || (0x1C <= n <= 0x20) || n == 0x85 || n == 0xA0 || n == 0x1680 ||
    (0x2000 <= n <= 0x200A) || n == 0x2028 || n == 0x2029 || n == 0x202F || n == 0x205F || n == 0x3000
  }

  predicate AllSpace(s: string)
  {
    forall i :: 0 <= i < |s| ==> IsSpace(s[i])
  }

  /** The separator the scripts split on; it cannot overlap itself, since it starts with
      '.' and ends with ' '. */
  const Separator: string := ". "

  /** `". "` occurs in `s` starting at index `i`. */
  predicate CutAt(s: string, i: int)
  {
    0 <= i && i + 1 < |s| && s[i] == '.' && s[i + 1] == ' '
  }

  /** Python's `". " in s`. */
  predicate HasSeparator(s: string)
  {
    exists i :: 0 <= i < |s| && CutAt(s, i)
  }

  /** Python's `s.find(". ")`: the leftmost index at which the separator occurs, or `None`
      where Python returns -1. */
  function Find(s: string): (r: Option<nat>)
    ensures r.Some? ==> CutAt(s, r.value) && forall j :: 0 <= j < r.value ==> !CutAt(s, j)
    ensures r.None? ==> !HasSeparator(s)
  {
    if |s| < 2 then None
    else if CutAt(s, 0) then Some(0)
    else
      match Find(s[1..])
      case None =>
        assert forall j :: 1 <= j ==> CutAt(s, j) == CutAt(s[1..], j - 1);
        None
      case Some(i) =>
        assert forall j :: 1 <= j ==> CutAt(s, j) == CutAt(s[1..], j - 1);
        Some(i + 1)
  }

  /** Python's `s.split(". ")`: cut at the leftmost occurrence of the separator, then split
      what follows it, so the cuts never overlap. */
  function Split(s: string): (parts: seq<string>)
    ensures |parts| >= 1
    ensures parts[0] <= s
    decreases |s|
  {
    match Find(s)
    case None => [s]
    case Some(i) => [s[..i]] + Split(s[i + 2..])
  }

  /** Python's `". ".join(parts)`: the empty string for no parts, otherwise the parts with
      the separator between each two neighbours. */
  function Join(parts: seq<string>): (s: string)
    ensures parts == [] ==> s == []
    ensures |parts| >= 1 ==> parts[0] <= s
    ensures |parts| >= 2 ==> |parts[0]| + 2 <= |s| && s[|parts[0]|..|parts[0]| + 2] == Separator
  {
    if |parts| == 0 then ""
    else if |parts| == 1 then parts[0]
    else parts[0] + Separator + Join(parts[1..])
  }

  /** Splitting loses nothing: joining the fragments with the separator gives back `s`. */
  lemma {:induction false} JoinSplit(s: string)
    ensures Join(Split(s)) == s
    decreases |s|
  {
    match Find(s)
    case None =>
    case Some(i) =>
      var rest := s[i + 2..];
      JoinSplit(rest);
      var parts := Split(s);
      assert parts[1..] == Split(rest);
      assert Join(parts) == s[..i] + Separator + rest;
      CutDecomposes(s, i);
  }

  /** A string is what precedes a cut, the separator, and what follows it. */
  lemma {:induction false} CutDecomposes(s: string, i: nat)
    requires CutAt(s, i)
    ensures s[..i] + Separator + s[i + 2..] == s
  {
    var t := s[..i] + Separator + s[i + 2..];
    assert |t| == |s|;
    forall q | 0 <= q < |s|
      ensures t[q] == s[q]
    {
      if q < i {
        assert t[q] == s[..i][q];
      } else if q >= i + 2 {
        assert t[q] == s[i + 2..][q - i - 2];
      }
    }
  }

  /** Before the leftmost occurrence there is none: the prefix up to it is free of the
      separator. */
  lemma {:induction false} PrefixAvoidsSeparator(s: string, i: nat)
    requires i <= |s|
    requires forall j :: 0 <= j < i ==> !CutAt(s, j)
    ensures !HasSeparator(s[..i])
  {
    forall j | 0 <= j < i
      ensures !CutAt(s[..i], j)
    {
      assert !CutAt(s, j);
    }
  }

  /** No fragment of a split contains the separator. */
  lemma {:induction false} SplitPartsAvoidSep(s: string)
    ensures forall k :: 0 <= k < |Split(s)| ==> !HasSeparator(Split(s)[k])
    decreases |s|
  {
    match Find(s)
    case None =>
    case Some(i) =>
      var rest := s[i + 2..];
      SplitPartsAvoidSep(rest);
      PrefixAvoidsSeparator(s, i);
      var parts := Split(s);
      assert parts == [s[..i]] + Split(rest);
      forall k | 0 < k < |parts|
        ensures !HasSeparator(parts[k])
      {
        assert parts[k] == Split(rest)[k - 1];
      }
  }

  /** A string splits into a single fragment, itself, exactly when it does not contain
      the separator. */
  lemma {:induction false} SplitSingle(s: string)
    ensures Split(s) == [s] <==> !HasSeparator(s)
  {
    match Find(s)
    case None =>
    case Some(i) =>
      assert |Split(s)| >= 2;
  }

  /** Python's rule for the first cut: when the leftmost occurrence of the separator
      starts at `i`, the first fragment is everything before it and the rest is the split
      of what follows it. */
  lemma {:induction false} SplitAtFirst(s: string, i: nat)
    requires CutAt(s, i)
    requires forall j :: 0 <= j < i ==> !CutAt(s, j)
    ensures Split(s) == [s[..i]] + Split(s[i + 2..])
  {
    assert Find(s) == Some(i);
  }

  /** A blank string never contains the separator (its '.' is not whitespace), so it
      splits into itself alone. */
  lemma {:induction false} SplitBlank(s: string)
    requires AllSpace(s)
    ensures Split(s) == [s]
  {
    forall i | 0 <= i < |s|
      ensures !CutAt(s, i)
    {
      assert IsSpace(s[i]);
    }
    SplitSingle(s);
  }

  /** The inverse of `JoinSplit`: joining fragments with ". " and splitting the result
      gives back exactly those fragments if and only if none of them contains ". ". (No
      occurrence can straddle a junction, because ". " starts with '.' and ends with ' '.)
      No parts at all do not come back: their join is "", which splits into [""]. */
  lemma {:induction false} SplitJoinRoundTrip(parts: seq<string>)
    requires |parts| >= 1
    ensures Split(Join(parts)) == parts <==> forall k :: 0 <= k < |parts| ==> !HasSeparator(parts[k])
  {
    if Split(Join(parts)) == parts {
      SplitPartsAvoidSep(Join(parts));
    }
    if exists k :: 0 <= k < |parts| && HasSeparator(parts[k]) {
    } else if |parts| == 1 {
      SplitSingle(parts[0]);
    } else {
      JoinedFirstCut(parts);
      SplitJoinRoundTrip(parts[1..]);
      assert parts == [parts[0]] + parts[1..];
    }
  }

  /** Joining with ". " after a fragment free of ". " puts the first cut right after that
      fragment. */
  lemma {:induction false} JoinedFirstCut(parts: seq<string>)
    requires |parts| >= 2 && !HasSeparator(parts[0])
    ensures Split(Join(parts)) == [parts[0]] + Split(Join(parts[1..]))
  {
    var p := parts[0];
    var rest := Join(parts[1..]);
    var s := p + Separator + rest;
    assert Join(parts) == s;
    forall j | 0 <= j < |p|
      ensures !CutAt(s, j)
    {
      if j + 1 < |p| {
        assert !CutAt(p, j);
      }
    }
    SplitAtFirst(s, |p|);
    assert s[..|p|] == p;
    assert s[|p| + 2..] == rest;
  }

  /** Python's `s.lstrip()`: a suffix of `s` that is empty or starts with non-whitespace. */
  function TrimStart(s: string): (r: string)
    ensures |r| <= |s| && r == s[|s| - |r|..]
    ensures r == [] || !IsSpace(r[0])
  {
    if |s| > 0 && IsSpace(s[0]) then TrimStart(s[1..]) else s
  }

  /** What `lstrip` removes is whitespace. */
  lemma {:induction false} TrimStartDropsSpace(s: string)
    ensures forall k :: 0 <= k < |s| - |TrimStart(s)| ==> IsSpace(s[k])
  {
    if |s| > 0 && IsSpace(s[0]) {
      TrimStartDropsSpace(s[1..]);
      forall k | 0 <= k < |s| - |TrimStart(s)|
        ensures IsSpace(s[k])
      {
        if k > 0 {
          assert s[k] == s[1..][k - 1];
        }
      }
    }
  }

  /** Python's `s.rstrip()`: a prefix of `s` that is empty or ends with non-whitespace. */
  function TrimEnd(s: string): (r: string)
    ensures |r| <= |s| && r == s[..|r|]
    ensures r == [] || !IsSpace(r[|r| - 1])
  {
    if |s| > 0 && IsSpace(s[|s| - 1]) then TrimEnd(s[..|s| - 1]) else s
  }

  /** What `rstrip` removes is whitespace. */
  lemma {:induction false} TrimEndDropsSpace(s: string)
    ensures forall k :: |TrimEnd(s)| <= k < |s| ==> IsSpace(s[k])
  {
    if |s| > 0 && IsSpace(s[|s| - 1]) {
      var t := s[..|s| - 1];
      TrimEndDropsSpace(t);
      forall k | |TrimEnd(s)| <= k < |s|
        ensures IsSpace(s[k])
      {
        if k < |s| - 1 {
          assert s[k] == t[k];
        }
      }
    }
  }

  /** Python's `s.strip()`. */
  function Strip(s: string): (r: string)
    ensures |r| <= |s|
    ensures r == [] || (!IsSpace(r[0]) && !IsSpace(r[|r| - 1]))
  {
    TrimEnd(TrimStart(s))
  }

  /** `strip` gives the empty string exactly for a blank input, and otherwise a string that
      starts and ends with a non-whitespace character. */
  lemma {:induction false} StripSpec(s: string)
    ensures Strip(s) == [] <==> AllSpace(s)
    ensures Strip(s) != [] ==> !IsSpace(Strip(s)[0]) && !IsSpace(Strip(s)[|Strip(s)| - 1])
  {
    if AllSpace(s) {
      TrimStartBlank(s);
    }
    if Strip(s) == [] {
      StripEmptyIsBlank(s);
    } else {
      assert Strip(s)[0] == TrimStart(s)[0];
    }
  }

  /** When `strip` leaves nothing, everything it removed, so all of `s`, was whitespace:
      `rstrip` cannot empty what `lstrip` leaves, since that starts with non-whitespace. */
  lemma {:induction false} StripEmptyIsBlank(s: string)
    requires Strip(s) == []
    ensures AllSpace(s)
  {
    var t := TrimStart(s);
    TrimStartDropsSpace(s);
    TrimEndDropsSpace(t);
    assert t == [];
  }

  /** `lstrip` empties a blank string. */
  lemma {:induction false} TrimStartBlank(s: string)
    requires AllSpace(s)
    ensures TrimStart(s) == []
  {
    if |s| > 0 {
      forall i | 0 <= i < |s| - 1
        ensures IsSpace(s[1..][i])
      {
        assert s[1..][i] == s[i + 1];
      }
      TrimStartBlank(s[1..]);
    }
  }

  /** What `strip` removes is whitespace, and only from the two ends: the result is the
      slice of `s` from `i` to `j`, and every character outside it is whitespace. */
  lemma {:induction false} StripIsSlice(s: string) returns (i: nat, j: nat)
    ensures i <= j <= |s| && Strip(s) == s[i..j]
    ensures forall k :: 0 <= k < i ==> IsSpace(s[k])
    ensures forall k :: j <= k < |s| ==> IsSpace(s[k])
  {
    var t := TrimStart(s);
    var r := TrimEnd(t);
    i := |s| - |t|;
    j := i + |r|;
    TrimStartDropsSpace(s);
    TrimEndDropsSpace(t);
    assert t == s[i..];
    SuffixSlices(s, i, |r|);
    forall k | j <= k < |s|
      ensures IsSpace(s[k])
    {
      assert s[k] == t[k - i];
    }
  }

  /** Cutting a suffix of `s` again is cutting `s`. */
  lemma {:induction false} SuffixSlices(s: string, i: nat, k: nat)
    requires i + k <= |s|
    ensures s[i..][..k] == s[i..i + k] && s[i..][k..] == s[i + k..]
  {
    forall q | 0 <= q < k
      ensures s[i..][..k][q] == s[i..i + k][q]
    {
      assert s[i..][..k][q] == s[i + q];
    }
    forall q | 0 <= q < |s| - i - k
      ensures s[i..][k..][q] == s[i + k..][q]
    {
      assert s[i..][k..][q] == s[i + k + q];
    }
  }

  /** Stripping a string with no whitespace at either end leaves it unchanged. */
  lemma {:induction false} StripTrimmed(s: string)
    requires s == [] || (!IsSpace(s[0]) && !IsSpace(s[|s| - 1]))
    ensures Strip(s) == s
  {
    assert TrimStart(s) == s;
  }

  /** A slice of a string free of the separator is free of it too. */
  lemma {:induction false} SliceAvoidsSeparator(s: string, i: nat, j: nat)
    requires i <= j <= |s| && !HasSeparator(s)
    ensures !HasSeparator(s[i..j])
  {
    forall m | 0 <= m < j - i
      ensures !CutAt(s[i..j], m)
    {
      if m + 1 < j - i {
        assert !CutAt(s, i + m);
      }
    }
  }

  /** Stripping a string free of the separator leaves it free of it. */
  lemma {:induction false} StripAvoidsSeparator(s: string)
    requires !HasSeparator(s)
    ensures !HasSeparator(Strip(s))
  {
    var t := TrimStart(s);
    var r := TrimEnd(t);
    SliceAvoidsSeparator(s, |s| - |t|, |s|);
    assert s[|s| - |t|..|s|] == t;
    SliceAvoidsSeparator(t, 0, |r|);
    assert t[0..|r|] == r;
  }
}
