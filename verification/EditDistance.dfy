/** The "did you mean" hint: levenshtein and nearestField. */
module EditDistance {

  /** One edit at the end of a prefix pair; Insert appends to the right, Delete drops from the left. */
  datatype Edit = Keep | Substitute | Insert | Delete

  function EditCost(e: Edit): nat {
    if e == Keep then 0 else 1
  }

  function Cost(script: seq<Edit>): nat {
    if script == [] then 0
    else Cost(script[..|script| - 1]) + EditCost(script[|script| - 1])
  }

  /** The script, read from left to right, turns the first `i` bytes of `left` into the first `j` of `right`. */
  ghost predicate Transforms(script: seq<Edit>, left: string, i: nat, right: string, j: nat)
    requires i <= |left| && j <= |right|
  {
    if script == [] then i == 0 && j == 0
    else
      var init := script[..|script| - 1];
      match script[|script| - 1]
      case Keep => i > 0 && j > 0 && left[i - 1] == right[j - 1] && Transforms(init, left, i - 1, right, j - 1)
      case Substitute => i > 0 && j > 0 && Transforms(init, left, i - 1, right, j - 1)
      case Insert => j > 0 && Transforms(init, left, i, right, j - 1)
      case Delete => i > 0 && Transforms(init, left, i - 1, right, j)
  }

  function Min3(a: int, b: int, c: int): int {
    if a <= b && a <= c then a else if b <= c then b else c
  }

  /** The recurrence the table of levenshtein fills in. */
  function PrefixDistance(left: string, i: nat, right: string, j: nat): nat
    requires i <= |left| && j <= |right|
  {
    if i == 0 then j
    else if j == 0 then i
    else Min3(
      PrefixDistance(left, i - 1, right, j) + 1,
      PrefixDistance(left, i, right, j - 1) + 1,
      PrefixDistance(left, i - 1, right, j - 1) + if left[i - 1] != right[j - 1] then 1 else 0)
  }

  function Distance(left: string, right: string): nat {
    PrefixDistance(left, |left|, right, |right|)
  }

  method Levenshtein(left: string, right: string) returns (distance: int)
    ensures distance == Distance(left, right)
  {
    if left == right {
      EqualHasDistanceZero(left, |left|);
      return 0;
    }
    if |left| == 0 { return |right|; }
    if |right| == 0 { return |left|; }

    var column := new int[|right| + 1](i => i);
    var i := 1;
    while i <= |left|
      invariant 1 <= i <= |left| + 1
      invariant forall k | 0 <= k <= |right| :: column[k] == PrefixDistance(left, i - 1, right, k)
    {
      NextRow(left, i, right, column);
      i := i + 1;
    }
    return column[|right|];
  }

  /** One cell from its three neighbours. */
  lemma OneCell(left: string, i: nat, right: string, j: nat)
    requires 1 <= i <= |left| && 1 <= j <= |right|
    ensures PrefixDistance(left, i, right, j) ==
            Min3(PrefixDistance(left, i - 1, right, j) + 1, PrefixDistance(left, i, right, j - 1) + 1,
                 PrefixDistance(left, i - 1, right, j - 1) + (if left[i - 1] != right[j - 1] then 1 else 0))
  {
  }

  lemma FirstCell(left: string, i: nat, right: string)
    requires i <= |left|
    ensures PrefixDistance(left, i, right, 0) == i
  {
  }

  /** The body of levenshtein's outer loop: overwrite row `i - 1` of the table by row `i`. */
  method NextRow(left: string, i: nat, right: string, column: array<int>)
    requires 1 <= i <= |left| && column.Length == |right| + 1
    requires forall k | 0 <= k <= |right| :: column[k] == PrefixDistance(left, i - 1, right, k)
    modifies column
    ensures forall k | 0 <= k <= |right| :: column[k] == PrefixDistance(left, i, right, k)
  {
    hide PrefixDistance, Min3;
    FirstCell(left, i, right);
    var previous := column[0];
    column[0] := i;
    var j := 1;
    while j <= |right|
      invariant 1 <= j <= |right| + 1
      invariant forall k | 0 <= k < j :: column[k] == PrefixDistance(left, i, right, k)
      invariant forall k | j <= k <= |right| :: column[k] == PrefixDistance(left, i - 1, right, k)
      invariant previous == PrefixDistance(left, i - 1, right, j - 1)
    {
      OneCell(left, i, right, j);
      var above := column[j];
      var cost := if left[i - 1] != right[j - 1] then 1 else 0;
      var insertion := column[j] + 1;
      var deletion := column[j - 1] + 1;
      var substitution := previous + cost;
      column[j] := Min3(insertion, deletion, substitution);
      previous := above;
      j := j + 1;
    }
  }

  lemma {:induction false} EqualHasDistanceZero(s: string, i: nat)
    requires i <= |s|
    ensures PrefixDistance(s, i, s, i) == 0
  {
    if i > 0 {
      EqualHasDistanceZero(s, i - 1);
    }
  }

  // ---- the recurrence is the cheapest script ----

  /** A script with one more edit at its end. */
  lemma OneMoreEdit(init: seq<Edit>, last: Edit, left: string, i: nat, right: string, j: nat)
    requires i <= |left| && j <= |right|
    ensures Cost(init + [last]) == Cost(init) + EditCost(last)
    ensures Transforms(init + [last], left, i, right, j) <==>
            match last
            case Keep => i > 0 && j > 0 && left[i - 1] == right[j - 1] && Transforms(init, left, i - 1, right, j - 1)
            case Substitute => i > 0 && j > 0 && Transforms(init, left, i - 1, right, j - 1)
            case Insert => j > 0 && Transforms(init, left, i, right, j - 1)
            case Delete => i > 0 && Transforms(init, left, i - 1, right, j)
  {
    assert (init + [last])[..|init|] == init;
  }

  lemma {:induction false} CheapestScript(left: string, i: nat, right: string, j: nat) returns (script: seq<Edit>)
    requires i <= |left| && j <= |right|
    ensures Transforms(script, left, i, right, j) && Cost(script) == PrefixDistance(left, i, right, j)
  {
    if i == 0 && j == 0 {
      script := [];
    } else {
      hide Transforms, Cost;
      var init, last;
      if i > 0 && PrefixDistance(left, i, right, j) == PrefixDistance(left, i - 1, right, j) + 1 {
        init := CheapestScript(left, i - 1, right, j);
        last := Delete;
      } else if j > 0 && PrefixDistance(left, i, right, j) == PrefixDistance(left, i, right, j - 1) + 1 {
        init := CheapestScript(left, i, right, j - 1);
        last := Insert;
      } else {
        init := CheapestScript(left, i - 1, right, j - 1);
        last := if left[i - 1] == right[j - 1] then Keep else Substitute;
      }
      script := init + [last];
      OneMoreEdit(init, last, left, i, right, j);
    }
  }

  lemma {:induction false} NoCheaperScript(script: seq<Edit>, left: string, i: nat, right: string, j: nat)
    requires i <= |left| && j <= |right| && Transforms(script, left, i, right, j)
    ensures PrefixDistance(left, i, right, j) <= Cost(script)
  {
    if script != [] {
      var init := script[..|script| - 1];
      match script[|script| - 1] {
        case Keep => NoCheaperScript(init, left, i - 1, right, j - 1);
        case Substitute => NoCheaperScript(init, left, i - 1, right, j - 1);
        case Insert => NoCheaperScript(init, left, i, right, j - 1);
        case Delete => NoCheaperScript(init, left, i - 1, right, j);
      }
    }
  }

  ghost predicate Rewrites(script: seq<Edit>, left: string, right: string) {
    Transforms(script, left, |left|, right, |right|)
  }

  /** The distance is the least cost of a script of insertions, deletions and substitutions. */
  lemma DistanceIsLeastCost(left: string, right: string)
    ensures exists script :: Rewrites(script, left, right) && Cost(script) == Distance(left, right)
    ensures forall script | Rewrites(script, left, right) :: Distance(left, right) <= Cost(script)
  {
    var script := CheapestScript(left, |left|, right, |right|);
    assert Rewrites(script, left, right);
    forall s | Rewrites(s, left, right) ensures Distance(left, right) <= Cost(s) {
      NoCheaperScript(s, left, |left|, right, |right|);
    }
  }

  // ---- hence a metric ----

  lemma {:induction false} FreeScriptKeeps(script: seq<Edit>, left: string, i: nat, right: string, j: nat)
    requires i <= |left| && j <= |right| && Transforms(script, left, i, right, j) && Cost(script) == 0
    ensures left[..i] == right[..j]
  {
    if script != [] {
      FreeScriptKeeps(script[..|script| - 1], left, i - 1, right, j - 1);
      assert left[..i] == left[..i - 1] + [left[i - 1]];
      assert right[..j] == right[..j - 1] + [right[j - 1]];
    }
  }

  lemma ZeroIffEqual(left: string, right: string)
    ensures Distance(left, right) == 0 <==> left == right
  {
    if left == right {
      EqualHasDistanceZero(left, |left|);
    } else if Distance(left, right) == 0 {
      var script := CheapestScript(left, |left|, right, |right|);
      FreeScriptKeeps(script, left, |left|, right, |right|);
    }
  }

  lemma {:induction false} PrefixSymmetry(left: string, i: nat, right: string, j: nat)
    requires i <= |left| && j <= |right|
    ensures PrefixDistance(left, i, right, j) == PrefixDistance(right, j, left, i)
  {
    if i > 0 && j > 0 {
      PrefixSymmetry(left, i - 1, right, j);
      PrefixSymmetry(left, i, right, j - 1);
      PrefixSymmetry(left, i - 1, right, j - 1);
    }
  }

  /** What two edits on the same middle byte amount to, if anything. */
  function Fuse(first: Edit, second: Edit): seq<Edit> {
    match (first, second)
    case (Insert, Delete) => []
    case (Insert, _) => [Insert]
    case (_, Delete) => [Delete]
    case (Keep, Keep) => [Keep]
    case _ => [Substitute]
  }

  lemma {:induction false} Compose(first: seq<Edit>, second: seq<Edit>, a: string, i: nat, b: string, j: nat, c: string, k: nat)
    returns (script: seq<Edit>)
    requires i <= |a| && j <= |b| && k <= |c|
    requires Transforms(first, a, i, b, j) && Transforms(second, b, j, c, k)
    ensures Transforms(script, a, i, c, k) && Cost(script) <= Cost(first) + Cost(second)
    decreases |first| + |second|
  {
    if first == [] && second == [] {
      script := [];
    } else {
      var init, tail;
      if first != [] && first[|first| - 1] == Delete {
        init := Compose(first[..|first| - 1], second, a, i - 1, b, j, c, k);
        tail := [Delete];
      } else if second != [] && second[|second| - 1] == Insert {
        init := Compose(first, second[..|second| - 1], a, i, b, j, c, k - 1);
        tail := [Insert];
      } else {
        var x, y := first[|first| - 1], second[|second| - 1];
        init := Compose(first[..|first| - 1], second[..|second| - 1],
                        a, if x == Insert then i else i - 1, b, j - 1, c, if y == Delete then k else k - 1);
        tail := Fuse(x, y);
      }
      script := init + tail;
      assert tail == [] ==> script == init;
      assert tail != [] ==> script[..|script| - 1] == init;
    }
  }

  lemma DistanceIsMetric(a: string, b: string, c: string)
    ensures Distance(a, b) == 0 <==> a == b
    ensures Distance(a, b) == Distance(b, a)
    ensures Distance(a, c) <= Distance(a, b) + Distance(b, c)
  {
    ZeroIffEqual(a, b);
    PrefixSymmetry(a, |a|, b, |b|);
    var first := CheapestScript(a, |a|, b, |b|);
    var second := CheapestScript(b, |b|, c, |c|);
    var script := Compose(first, second, a, |a|, b, |b|, c, |c|);
    NoCheaperScript(script, a, |a|, c, |c|);
  }

  // ---- the hint ----

  /** `allowed[k]` is at minimum distance from the field, and the first such name. */
  ghost predicate FirstNearest(field: string, allowed: seq<string>, k: nat) {
    && k < |allowed|
    && (forall m | 0 <= m < |allowed| :: Distance(field, allowed[k]) <= Distance(field, allowed[m]))
    && (forall m | 0 <= m < k :: Distance(field, allowed[k]) < Distance(field, allowed[m]))
  }

  method NearestField(field: string, allowed: seq<string>) returns (best: string)
    ensures allowed == [] ==> best == ""
    ensures allowed != [] ==> exists k: nat :: FirstNearest(field, allowed, k) &&
                                          best == (if Distance(field, allowed[k]) > 3 then "" else allowed[k])
  {
    best := "";
    var bestDistance := -1;
    ghost var nearest := 0;
    var i := 0;
    while i < |allowed|
      invariant 0 <= i <= |allowed|
      invariant i == 0 ==> bestDistance == -1 && best == ""
      invariant i > 0 ==> FirstNearest(field, allowed[..i], nearest) && best == allowed[nearest] &&
                          bestDistance == Distance(field, best)
    {
      assert forall m | 0 <= m < i :: allowed[..i + 1][m] == allowed[..i][m];
      var distance := Levenshtein(field, allowed[i]);
      if bestDistance == -1 || distance < bestDistance {
        bestDistance := distance;
        best := allowed[i];
        nearest := i;
      }
      i := i + 1;
    }
    assert allowed[..i] == allowed;
    if bestDistance > 3 {
      best := "";
    }
  }
}
