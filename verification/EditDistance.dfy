/** levenshtein and closest_key: two rolling rows against the least number of
    one-character edits. */
module EditDistance {
  import opened Wrappers

  // ------------------------------------------------------------ what is meant

  predicate Deletes(a: string, b: string, i: nat) {
    && i < |a| == |b| + 1
    && (forall k :: 0 <= k < i ==> b[k] == a[k])
    && (forall k :: i <= k < |b| ==> b[k] == a[k + 1])
  }

  predicate Substitutes(a: string, b: string, i: nat) {
    i < |a| == |b| && a[i] != b[i] && forall k :: 0 <= k < |a| && k != i ==> b[k] == a[k]
  }

  /** b is a with one character deleted, inserted or replaced. */
  ghost predicate OneEdit(a: string, b: string) {
    exists i: nat :: Deletes(a, b, i) || Deletes(b, a, i) || Substitutes(a, b, i)
  }

  /** path leads from a to b by single edits. */
  ghost predicate Edits(path: seq<string>, a: string, b: string) {
    && path != [] && path[0] == a && path[|path| - 1] == b
    && forall k :: 0 <= k < |path| - 1 ==> OneEdit(path[k], path[k + 1])
  }

  // ------------------------------------------------------------- the recurrence

  function Min(a: nat, b: nat): nat {
    if a <= b then a else b
  }

  function Front(s: string): string
    requires s != ""
  {
    s[..|s| - 1]
  }

  function Last(s: string): char
    requires s != ""
  {
    s[|s| - 1]
  }

  function Distance(a: string, b: string): nat
    decreases |a| + |b|
  {
    if a == "" then |b|
    else if b == "" then |a|
    else
      var cost := if Last(a) != Last(b) then 1 else 0;
      Min(Min(Distance(Front(a), b) + 1, Distance(a, Front(b)) + 1), Distance(Front(a), Front(b)) + cost)
  }

  lemma DistanceAtMost(a: string, b: string)
    requires a != "" && b != ""
    ensures Distance(a, b) <= Distance(Front(a), b) + 1
    ensures Distance(a, b) <= Distance(a, Front(b)) + 1
    ensures Distance(a, b) <= Distance(Front(a), Front(b)) + (if Last(a) != Last(b) then 1 else 0)
    ensures || Distance(a, b) == Distance(Front(a), b) + 1
            || Distance(a, b) == Distance(a, Front(b)) + 1
            || Distance(a, b) == Distance(Front(a), Front(b)) + (if Last(a) != Last(b) then 1 else 0)
  {
  }

  // -------------------------------------------------- no path is shorter

  /** Dropping the last character changes the distance by at most one. */
  lemma {:induction false} FrontIsNear(a: string, c: string)
    requires a != ""
    ensures Distance(Front(a), c) <= Distance(a, c) + 1
    ensures Distance(a, c) <= Distance(Front(a), c) + 1
    decreases |c|
  {
    if c != "" {
      FrontIsNear(a, Front(c));
      DistanceAtMost(a, c);
      if Front(a) != "" {
        DistanceAtMost(Front(a), c);
      }
    }
  }

  /** One edit changes the distance to any third string by at most one. */
  lemma {:induction false} EditIsNear(a: string, b: string, i: nat, c: string)
    requires Deletes(a, b, i) || Deletes(b, a, i) || Substitutes(a, b, i)
    ensures Distance(a, c) <= Distance(b, c) + 1
    decreases |a| + |b| + |c|
  {
    hide Distance;
    if Deletes(a, b, i) && i == |a| - 1 {
      assert b == Front(a);
      FrontIsNear(a, c);
    } else if Deletes(b, a, i) && i == |b| - 1 {
      assert a == Front(b);
      FrontIsNear(b, c);
    } else {
      EditInside(a, b, i, c);
    }
  }

  /** The edit lies before the last character, or replaces it. */
  lemma {:induction false} EditInside(a: string, b: string, i: nat, c: string)
    requires Deletes(a, b, i) || Deletes(b, a, i) || Substitutes(a, b, i)
    requires (Deletes(a, b, i) ==> i < |a| - 1) && (Deletes(b, a, i) ==> i < |b| - 1)
    ensures Distance(a, c) <= Distance(b, c) + 1
    decreases |a| + |b| + |c|, 0
  {
    hide Distance;
    DistanceToEmpty(a);
    DistanceToEmpty(b);
    if c != "" {
      DistanceAtMost(a, c);
      DistanceAtMost(b, c);
      EditIsNear(a, b, i, Front(c));
      if Substitutes(a, b, i) && i == |a| - 1 {
        assert Front(a) == Front(b);
      } else {
        EditInFront(a, b, i);
        EditIsNear(Front(a), Front(b), i, c);
        EditIsNear(Front(a), Front(b), i, Front(c));
      }
    }
  }

  lemma DistanceToEmpty(a: string)
    ensures Distance(a, "") == |a| && Distance("", a) == |a|
  {
  }

  lemma EditInFront(a: string, b: string, i: nat)
    requires Deletes(a, b, i) || Deletes(b, a, i) || Substitutes(a, b, i)
    requires if Deletes(b, a, i) then i < |b| - 1 else i < |a| - 1
    ensures a != "" && b != "" && Last(a) == Last(b)
    ensures Deletes(a, b, i) ==> Deletes(Front(a), Front(b), i)
    ensures Deletes(b, a, i) ==> Deletes(Front(b), Front(a), i)
    ensures Substitutes(a, b, i) ==> Substitutes(Front(a), Front(b), i)
  {
  }

  lemma {:induction false} NoPathIsShorter(path: seq<string>, a: string, b: string)
    requires Edits(path, a, b)
    ensures Distance(a, b) <= |path| - 1
    decreases |path|
  {
    if |path| == 1 {
      SameIsZero(a);
    } else {
      assert OneEdit(path[0], path[1]);
      var i: nat :| Deletes(a, path[1], i) || Deletes(path[1], a, i) || Substitutes(a, path[1], i);
      EditIsNear(a, path[1], i, b);
      NoPathIsShorter(path[1..], path[1], b);
    }
  }

  lemma {:induction false} SameIsZero(a: string)
    ensures Distance(a, a) == 0
  {
    if a != "" {
      SameIsZero(Front(a));
    }
  }

  // ------------------------------------------------------- one path is that short

  lemma EditBeforeCharacter(a: string, b: string, c: char)
    requires OneEdit(a, b)
    ensures OneEdit(a + [c], b + [c])
  {
    var i: nat :| Deletes(a, b, i) || Deletes(b, a, i) || Substitutes(a, b, i);
    var x, y := a + [c], b + [c];
    assert Deletes(x, y, i) || Deletes(y, x, i) || Substitutes(x, y, i);
  }

  function Append(path: seq<string>, c: char): seq<string> {
    seq(|path|, k requires 0 <= k < |path| => path[k] + [c])
  }

  lemma AppendEdits(path: seq<string>, a: string, b: string, c: char)
    requires Edits(path, a, b)
    ensures Edits(Append(path, c), a + [c], b + [c])
  {
    hide OneEdit;
    forall k | 0 <= k < |path| - 1 ensures OneEdit(Append(path, c)[k], Append(path, c)[k + 1]) {
      EditBeforeCharacter(path[k], path[k + 1], c);
    }
  }

  lemma ExtendEdits(path: seq<string>, a: string, b: string, c: string)
    requires Edits(path, a, b) && OneEdit(b, c)
    ensures Edits(path + [c], a, c)
  {
    hide OneEdit;
  }

  lemma PrependEdits(path: seq<string>, a: string, b: string, c: string)
    requires Edits(path, b, c) && OneEdit(a, b)
    ensures Edits([a] + path, a, c)
  {
    hide OneEdit;
  }

  lemma LastEdits(a: string, b: string)
    ensures a != "" ==> OneEdit(a, Front(a)) && OneEdit(Front(a), a)
    ensures a != "" && b != "" && Front(a) == Front(b) && Last(a) != Last(b) ==> OneEdit(a, b)
  {
    if a != "" {
      assert Deletes(a, Front(a), |a| - 1);
      if b != "" && Front(a) == Front(b) && Last(a) != Last(b) {
        assert Substitutes(a, b, |a| - 1);
      }
    }
  }

  /** A path of exactly the computed length. */
  lemma {:induction false} ShortestPath(a: string, b: string) returns (path: seq<string>)
    ensures Edits(path, a, b) && |path| == Distance(a, b) + 1
    decreases |a| + |b|
  {
    hide OneEdit, Distance;
    DistanceToEmpty(a);
    DistanceToEmpty(b);
    LastEdits(a, b);
    LastEdits(b, a);
    if a == "" && b == "" {
      return [""];
    }
    if a != "" && b != "" {
      DistanceAtMost(a, b);
      assert a == Front(a) + [Last(a)] && b == Front(b) + [Last(b)];
    }
    if b == "" || (a != "" && Distance(a, b) == Distance(Front(a), b) + 1) {
      DistanceToEmpty(Front(a));
      path := ShortestPath(Front(a), b);
      PrependEdits(path, a, Front(a), b);
      path := [a] + path;
    } else if a == "" || Distance(a, b) == Distance(a, Front(b)) + 1 {
      DistanceToEmpty(Front(b));
      path := ShortestPath(a, Front(b));
      ExtendEdits(path, a, Front(b), b);
      path := path + [b];
    } else {
      path := ShortestPath(Front(a), Front(b));
      AppendEdits(path, Front(a), Front(b), Last(a));
      path := Append(path, Last(a));
      if Last(a) != Last(b) {
        var c := Front(b) + [Last(a)];
        LastEdits(c, b);
        assert Front(c) == Front(b);
        ExtendEdits(path, a, c, b);
        path := path + [b];
      }
    }
  }

  /** The recurrence gives the true edit distance: some path of single edits has
      that length, and none is shorter. */
  lemma DistanceIsLeast(a: string, b: string)
    ensures exists path :: Edits(path, a, b) && |path| - 1 == Distance(a, b)
    ensures forall path :: Edits(path, a, b) ==> Distance(a, b) <= |path| - 1
  {
    hide Edits, Distance;
    var path := ShortestPath(a, b);
    forall path | Edits(path, a, b) ensures Distance(a, b) <= |path| - 1 {
      NoPathIsShorter(path, a, b);
    }
  }

  // ---------------------------------------------------------------- the Rust code

  lemma FrontOfPrefix(s: string, i: nat)
    requires i < |s|
    ensures Front(s[..i + 1]) == s[..i] && Last(s[..i + 1]) == s[i]
  {
  }

  lemma Prefixes(left: string, right: string, i: nat, j: nat)
    requires i < |left| && j < |right|
    ensures Distance(left[..i + 1], right[..j + 1]) ==
              Min(Min(Distance(left[..i], right[..j + 1]) + 1, Distance(left[..i + 1], right[..j]) + 1),
                  Distance(left[..i], right[..j]) + (if left[i] != right[j] then 1 else 0))
  {
    var a, b := left[..i + 1], right[..j + 1];
    hide Distance;
    hide Front, Last;
    FrontOfPrefix(left, i);
    FrontOfPrefix(right, j);
    DistanceAtMost(a, b);
  }

  /** levenshtein: the two rows are reused and swapped. */
  method Levenshtein(left: string, right: string) returns (d: nat)
    ensures d == Distance(left, right)
  {
    hide Distance;
    var previous := new nat[|right| + 1](j => j);
    var current := new nat[|right| + 1](_ => 0);
    forall j | 0 <= j <= |right| ensures previous[j] == Distance(left[..0], right[..j]) {
      DistanceToEmpty(right[..j]);
    }
    for i := 0 to |left|
      invariant fresh(previous) && fresh(current) && previous != current
      invariant previous.Length == current.Length == |right| + 1
      invariant forall j :: 0 <= j <= |right| ==> previous[j] == Distance(left[..i], right[..j])
    {
      current[0] := i + 1;
      DistanceToEmpty(left[..i + 1]);
      for j := 0 to |right|
        invariant forall k :: 0 <= k <= |right| ==> previous[k] == Distance(left[..i], right[..k])
        invariant forall k :: 0 <= k <= j ==> current[k] == Distance(left[..i + 1], right[..k])
      {
        var cost := if left[i] != right[j] then 1 else 0;
        Prefixes(left, right, i, j);
        current[j + 1] := Min(Min(previous[j + 1] + 1, current[j] + 1), previous[j] + cost);
      }
      previous, current := current, previous;
    }
    assert left[..|left|] == left && right[..|right|] == right;
    return previous[|right|];
  }

  /** closest_key: the first key at the least distance. */
  method ClosestKey(key: string, known: seq<string>) returns (r: Option<string>)
    ensures r.None? <==> known == []
    ensures r.Some? ==> exists k :: 0 <= k < |known| && r.value == known[k]
                          && (forall j :: 0 <= j < |known| ==> Distance(key, known[k]) <= Distance(key, known[j]))
                          && (forall j :: 0 <= j < k ==> Distance(key, known[k]) < Distance(key, known[j]))
  {
    hide Distance;
    if known == [] {
      return None;
    }
    var best := 0;
    var least := Levenshtein(key, known[0]);
    for i := 1 to |known|
      invariant best < i && least == Distance(key, known[best])
      invariant forall j :: 0 <= j < i ==> least <= Distance(key, known[j])
      invariant forall j :: 0 <= j < best ==> least < Distance(key, known[j])
    {
      var d := Levenshtein(key, known[i]);
      if d < least {
        best, least := i, d;
      }
    }
    return Some(known[best]);
  }
}
