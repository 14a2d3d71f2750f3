/** The Python string operations the variant codec is built from: `strip()`,
    `t in s`, `s.split(t)`, `s.split(t, 1)` (the first occurrence) and
    `t.join(parts)`, on strings as sequences of characters. */
module Text {
  import opened Wrappers

  /** The characters `str.isspace()` accepts, which `str.strip()` removes. */
  predicate IsSpace(c: char) {
    || c == ' '
    || ('\t' <= c <= '\r')
    || ('\U{1c}' <= c <= '\U{1f}')
    || c == '\U{85}' || c == '\U{a0}' || c == '\U{1680}'
    || ('\U{2000}' <= c <= '\U{200a}')
    || c == '\U{2028}' || c == '\U{2029}' || c == '\U{202f}' || c == '\U{205f}' || c == '\U{3000}'
  }

  /** Neither end of `s` is whitespace, so `strip()` leaves it alone. */
  predicate IsTrimmed(s: string) {
    |s| == 0 || (!IsSpace(s[0]) && !IsSpace(s[|s| - 1]))
  }

  /** `s.lstrip()`: the suffix left after dropping the leading whitespace. */
  function TrimStart(s: string): (r: string)
    ensures |r| <= |s| && r == s[|s| - |r|..]
    ensures r == [] || !IsSpace(r[0])
    ensures forall i :: 0 <= i < |s| - |r| ==> IsSpace(s[i])
  {
    if |s| > 0 && IsSpace(s[0]) then TrimStart(s[1..]) else s
  }

  /** `s.rstrip()`: the prefix left after dropping the trailing whitespace. */
  function TrimEnd(s: string): (r: string)
    ensures |r| <= |s| && r == s[..|r|]
    ensures r == [] || !IsSpace(r[|r| - 1])
    ensures forall i :: |r| <= i < |s| ==> IsSpace(s[i])
  {
    if |s| > 0 && IsSpace(s[|s| - 1]) then TrimEnd(s[..|s| - 1]) else s
  }

  /** `r` stands in `s` at position `a`, and everything before and after it
      is whitespace. */
  predicate Surrounds(s: string, r: string, a: nat) {
    && a + |r| <= |s|
    && r == s[a..a + |r|]
    && (forall i :: 0 <= i < a ==> IsSpace(s[i]))
    && (forall i :: a + |r| <= i < |s| ==> IsSpace(s[i]))
  }

  /** `s.strip()`: the middle of `s` left once the whitespace at both ends
      is removed. */
  function Strip(s: string): (r: string)
    ensures IsTrimmed(r)
    ensures IsTrimmed(s) ==> r == s
    ensures |r| <= |s|
    ensures exists a: nat :: Surrounds(s, r, a)
  {
    TrimSurrounds(s);
    TrimEnd(TrimStart(s))
  }

  lemma TrimSurrounds(s: string)
    ensures Surrounds(s, TrimEnd(TrimStart(s)), |s| - |TrimStart(s)|)
  {
    var u := TrimStart(s);
    var r := TrimEnd(u);
    var a := |s| - |u|;
    assert r == s[a..a + |r|];
    assert forall i :: 0 <= i < a ==> IsSpace(s[i]);
    assert forall i :: a + |r| <= i < |s| ==> IsSpace(s[i]) by {
      forall i | a + |r| <= i < |s|
        ensures IsSpace(s[i])
      {
        assert s[i] == u[i - a];
      }
    }
    assert a + |r| <= |s|;
    assert Surrounds(s, r, a);
  }

  /** `t` occurs in `s` starting at position `i`. */
  predicate OccursAt(s: string, t: string, i: nat) {
    i + |t| <= |s| && forall k :: 0 <= k < |t| ==> s[i + k] == t[k]
  }

  /** Python's `t in s`. */
  ghost predicate Contains(s: string, t: string) {
    exists i: nat :: OccursAt(s, t, i)
  }

  /** Python's `s.find(t)`, with None standing for -1. */
  function IndexOf(s: string, t: string): (r: Option<nat>)
    ensures r.Some? ==> OccursAt(s, t, r.value)
    ensures r.Some? ==> forall i: nat :: i < r.value ==> !OccursAt(s, t, i)
    ensures r.None? <==> !Contains(s, t)
    decreases |s|
  {
    if |s| < |t| then
      None
    else if OccursAt(s, t, 0) then
      Some(0)
    else
      ShiftOccurrences(s, t);
      match IndexOf(s[1..], t)
      case None => None
      case Some(k) => Some(k + 1)
  }

  /** Python's `t.join(parts)`: the parts in order with `t` between each
      two; `Split` undoes it (`SplitJoin`). */
  function Join(parts: seq<string>, t: string): (r: string)
    ensures |parts| == 0 ==> r == ""
    ensures |parts| == 1 ==> r == parts[0]
  {
    if |parts| == 0 then ""
    else if |parts| == 1 then parts[0]
    else parts[0] + t + Join(parts[1..], t)
  }

  /** Python's `s.split(t)` for a non-empty separator `t`: the pieces between
      the occurrences of `t`, found left to right without overlap. */
  function Split(s: string, t: string): (parts: seq<string>)
    requires |t| > 0
    ensures |parts| > 0
    ensures Join(parts, t) == s
    ensures forall k :: 0 <= k < |parts| ==> !Contains(parts[k], t)
    decreases |s|
  {
    match IndexOf(s, t)
    case None => [s]
    case Some(i) =>
      var rest := Split(s[i + |t|..], t);
      assert s == s[..i] + t + s[i + |t|..] by {
        assert s[i..i + |t|] == t;
        assert s == s[..i] + s[i..i + |t|] + s[i + |t|..];
      }
      assert !Contains(s[..i], t) by {
        forall j: nat
          ensures !OccursAt(s[..i], t, j)
        {
          OccursInPrefix(s, t, i, j);
        }
      }
      assert ([s[..i]] + rest)[1..] == rest;
      [s[..i]] + rest
  }

  /** A separator that cannot overlap a copy of itself shifted by one:
      one character, or two different ones such as `"; "` and `", "`. */
  predicate Unbordered(t: string) {
    |t| == 1 || (|t| == 2 && t[0] != t[1])
  }

  lemma ShiftOccurrences(s: string, t: string)
    requires |s| > 0
    ensures forall i: nat :: OccursAt(s[1..], t, i) <==> OccursAt(s, t, i + 1)
    ensures forall i: nat :: i > 0 ==> (OccursAt(s, t, i) <==> OccursAt(s[1..], t, i - 1))
  {
  }

  lemma OccursInPrefix(s: string, t: string, n: nat, j: nat)
    requires n <= |s|
    ensures OccursAt(s[..n], t, j) ==> OccursAt(s, t, j) && j + |t| <= n
  {
  }

  lemma OccursInSuffix(s: string, t: string, n: nat, j: nat)
    requires n <= |s|
    ensures OccursAt(s[n..], t, j) ==> OccursAt(s, t, n + j)
  {
  }

  /** Whatever occurs in a piece of a concatenation occurs in the whole. */
  lemma ContainsInConcat(a: string, b: string, t: string)
    ensures Contains(a, t) ==> Contains(a + b, t)
    ensures Contains(b, t) ==> Contains(a + b, t)
  {
    if Contains(a, t) {
      var j: nat :| OccursAt(a, t, j);
      assert (a + b)[..|a|] == a;
      OccursInPrefix(a + b, t, |a|, j);
    }
    if Contains(b, t) {
      var j: nat :| OccursAt(b, t, j);
      assert (a + b)[|a|..] == b;
      OccursInSuffix(a + b, t, |a|, j);
    }
  }

  /** What a string lacks, both halves of it lack. */
  lemma SliceFree(s: string, n: nat, t: string)
    requires n <= |s| && !Contains(s, t)
    ensures !Contains(s[..n], t) && !Contains(s[n..], t)
  {
    assert s == s[..n] + s[n..];
    ContainsInConcat(s[..n], s[n..], t);
  }

  /** Stripping a blank in front of a trimmed string gives that string. */
  lemma StripLeadingBlank(s: string)
    requires IsTrimmed(s)
    ensures Strip(" " + s) == s
  {
    assert (" " + s)[1..] == s;
  }

  /** Stripping never creates an occurrence. */
  lemma StripKeepsFree(s: string, t: string)
    requires !Contains(s, t)
    ensures !Contains(Strip(s), t)
  {
    var u := TrimStart(s);
    var r := Strip(s);
    forall j: nat
      ensures !OccursAt(r, t, j)
    {
      OccursInPrefix(u, t, |r|, j);
      OccursInSuffix(s, t, |s| - |u|, j);
    }
  }

  /** For a one-character separator, `t in s` is character membership. */
  lemma ContainsChar(s: string, c: char)
    ensures Contains(s, [c]) <==> c in s
  {
    if c in s {
      var i :| 0 <= i < |s| && s[i] == c;
      assert OccursAt(s, [c], i);
    }
    if Contains(s, [c]) {
      var i: nat :| OccursAt(s, [c], i);
      assert s[i + 0] == [c][0] == c;
    }
  }

  /** A string without the first character of `t` cannot contain `t`. */
  lemma FreeOfFirstChar(s: string, t: string)
    requires |t| > 0 && t[0] !in s
    ensures !Contains(s, t)
  {
    forall i: nat
      ensures !OccursAt(s, t, i)
    {
      if i + |t| <= |s| {
        assert s[i + 0] != t[0];
      }
    }
  }

  /** Gluing two strings free of a separator of at most two characters leaves
      the result free of it unless the seam itself spells the separator. */
  lemma ConcatFree(a: string, b: string, t: string)
    requires 1 <= |t| <= 2
    requires !Contains(a, t) && !Contains(b, t)
    requires |t| == 2 && |a| > 0 && |b| > 0 ==> !(a[|a| - 1] == t[0] && b[0] == t[1])
    ensures !Contains(a + b, t)
  {
    var s := a + b;
    forall i: nat
      ensures !OccursAt(s, t, i)
    {
      if i + |t| <= |a| {
        assert !OccursAt(a, t, i);
        var k :| 0 <= k < |t| && a[i + k] != t[k];
        assert s[i + k] != t[k];
      } else if i >= |a| {
        assert !OccursAt(b, t, i - |a|);
        if i + |t| <= |s| {
          var k :| 0 <= k < |t| && b[i - |a| + k] != t[k];
          assert s[i + k] != t[k];
        }
      } else if i + |t| <= |s| {
        assert !(s[i + 0] == t[0] && s[i + 1] == t[1]);
      }
    }
  }

  /** No occurrence starts inside `a` when `a` holds none and `b` starts
      with an unbordered separator. */
  lemma NoOccurrenceBefore(a: string, b: string, t: string, i: nat)
    requires Unbordered(t)
    requires !Contains(a, t) && OccursAt(b, t, 0)
    requires i < |a|
    ensures !OccursAt(a + b, t, i)
  {
    var s := a + b;
    if i + |t| <= |a| {
      assert !OccursAt(a, t, i);
      var k :| 0 <= k < |t| && a[i + k] != t[k];
      assert s[i + k] != t[k];
    } else {
      assert b[0 + 0] == t[0];
      assert !(s[i + 0] == t[0] && s[i + 1] == t[1]);
    }
  }

  /** The first occurrence in `a + b` is where `b` starts, when `a` holds
      none and `b` starts with the separator. */
  lemma IndexOfConcat(a: string, b: string, t: string)
    requires Unbordered(t)
    requires !Contains(a, t) && OccursAt(b, t, 0)
    ensures IndexOf(a + b, t) == Some(|a|)
  {
    var s := a + b;
    assert OccursAt(s, t, |a|) by {
      forall k | 0 <= k < |t|
        ensures s[|a| + k] == t[k]
      {
        assert b[0 + k] == t[k];
      }
    }
    var r := IndexOf(s, t);
    assert r.Some?;
    if r.value < |a| {
      NoOccurrenceBefore(a, b, t, r.value);
      assert false;
    }
    assert r.value <= |a|;
  }

  /** Splitting undoes joining: `t.join(parts).split(t) == parts` whenever no
      part contains the separator. */
  lemma {:induction false} SplitJoin(parts: seq<string>, t: string)
    requires Unbordered(t)
    requires |parts| > 0
    requires forall k :: 0 <= k < |parts| ==> !Contains(parts[k], t)
    ensures Split(Join(parts, t), t) == parts
  {
    if |parts| == 1 {
      assert IndexOf(parts[0], t) == None;
    } else {
      var p := parts[0];
      var rest := Join(parts[1..], t);
      var s := p + (t + rest);
      assert Join(parts, t) == s;
      assert OccursAt(t + rest, t, 0);
      IndexOfConcat(p, t + rest, t);
      assert s[..|p|] == p;
      assert s[|p| + |t|..] == rest;
      SplitJoin(parts[1..], t);
      assert Split(s, t) == [p] + Split(rest, t);
      assert parts == [p] + parts[1..];
    }
  }

  /** Joining pieces free of `t` with a glue free of `t` whose ends cannot
      complete a half of `t` gives a string free of `t`. */
  lemma {:induction false} JoinFree(parts: seq<string>, glue: string, t: string)
    requires |t| == 2
    requires forall k :: 0 <= k < |parts| ==> !Contains(parts[k], t)
    requires !Contains(glue, t) && |glue| > 0
    requires glue[0] != t[1] && glue[|glue| - 1] != t[0]
    ensures !Contains(Join(parts, glue), t)
  {
    if |parts| > 1 {
      JoinFree(parts[1..], glue, t);
      ConcatFree(parts[0], glue, t);
      ConcatFree(parts[0] + glue, Join(parts[1..], glue), t);
      assert Join(parts, glue) == parts[0] + glue + Join(parts[1..], glue);
    }
  }

  /** A part of a join is a substring of the join. */
  lemma {:induction false} JoinKeepsParts(parts: seq<string>, glue: string, u: string)
    requires !Contains(Join(parts, glue), u)
    ensures forall k :: 0 <= k < |parts| ==> !Contains(parts[k], u)
  {
    if |parts| > 1 {
      var rest := Join(parts[1..], glue);
      ContainsInConcat(parts[0], glue + rest, u);
      ContainsInConcat(glue, rest, u);
      assert Join(parts, glue) == parts[0] + (glue + rest);
      JoinKeepsParts(parts[1..], glue, u);
      forall k | 0 <= k < |parts|
        ensures !Contains(parts[k], u)
      {
        if k > 0 {
          assert parts[k] == parts[1..][k - 1];
        }
      }
    }
  }

  /** The pieces `s.split(t)` returns hold no occurrence of anything `s` lacks. */
  lemma SplitKeepsFree(s: string, t: string, u: string)
    requires |t| > 0 && !Contains(s, u)
    ensures forall k :: 0 <= k < |Split(s, t)| ==> !Contains(Split(s, t)[k], u)
  {
    JoinKeepsParts(Split(s, t), t, u);
  }

  /** A join of non-empty pieces starts with the first piece's first
      character and ends with the last piece's last character. */
  lemma {:induction false} JoinEnds(parts: seq<string>, glue: string)
    requires |parts| > 0 && forall k :: 0 <= k < |parts| ==> |parts[k]| > 0
    ensures |Join(parts, glue)| > 0
    ensures Join(parts, glue)[0] == parts[0][0]
    ensures Join(parts, glue)[|Join(parts, glue)| - 1] == parts[|parts| - 1][|parts[|parts| - 1]| - 1]
  {
    if |parts| > 1 {
      var rest := Join(parts[1..], glue);
      JoinEnds(parts[1..], glue);
      assert Join(parts, glue) == parts[0] + glue + rest;
    }
  }
}
