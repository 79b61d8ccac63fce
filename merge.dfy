/** `toml_merge` from src/config/syntax.rs: the depth-bounded merge of two
    TOML values that folds the syntax configuration sources together.

    `Merged` is the specification, written as functions; `TomlMerge` is the
    source's loop-and-mutate algorithm, proved to compute `Merged`. The lemmas
    state what the merge does in terms a configuration author would use. */
module Merge {
  import opened Results
  import opened Toml

  /** Both values are arrays or both are tables: the only pairings the merge
      looks inside. */
  predicate SameKind(a: Value, b: Value) {
    (a.Array? && b.Array?) || (a.Table? && b.Table?)
  }

  /** The value `toml_merge(a, b, depth)` returns. Each recursive step swaps
      the argument order: the element or entry taken from `b` becomes the
      first argument one level down. */
  function Merged(a: Value, b: Value, depth: nat): Value
    decreases depth, 0, 0
  {
    if a.Array? && b.Array? then
      if depth > 0 then Array(MergeItems(b.items, a.items, depth - 1)) else a
    else if a.Table? && b.Table? then
      if depth > 0 then Table(MergeEntries(a.entries, b.entries, depth - 1)) else a
    else b
  }

  /** The table case: every key of either table; a shared key holds the
      merge of the right value with the left one. */
  function MergeEntries(left: map<string, Value>, right: map<string, Value>, d: nat): (r: map<string, Value>)
    ensures r.Keys == left.Keys + right.Keys
    decreases d, 1, 0
  {
    map k | k in left.Keys + right.Keys ::
      if k in left && k in right then Merged(right[k], left[k], d)
      else if k in left then left[k]
      else right[k]
  }

  /** The index of the first element of `items` named `n`, as
      `iter().position` finds it. */
  function Position(items: seq<Value>, n: string): (r: Option<nat>)
    ensures r.Some? ==> r.value < |items| && NameOf(items[r.value]) == Some(n)
    ensures r.Some? ==> forall j :: 0 <= j < r.value ==> NameOf(items[j]) != Some(n)
    ensures r.None? ==> forall j :: 0 <= j < |items| ==> NameOf(items[j]) != Some(n)
  {
    if items == [] then None
    else if NameOf(items[0]) == Some(n) then Some(0)
    else
      match Position(items[1..], n)
      case None => None
      case Some(p) => Some(p + 1)
  }

  /** `Vec::remove`. */
  function RemoveAt(s: seq<Value>, p: nat): seq<Value>
    requires p < |s|
  {
    s[..p] + s[p + 1..]
  }

  /** The match an element `lv` of the left array finds in the working array. */
  function MatchIn(work: seq<Value>, lv: Value): Option<nat> {
    match NameOf(lv)
    case None => None
    case Some(n) => Position(work, n)
  }

  /** The working array after one iteration of the array loop over `lv`. */
  function MergeItem(work: seq<Value>, lv: Value, d: nat): seq<Value>
    decreases d, 1, 0
  {
    match MatchIn(work, lv)
    case None => work + [lv]
    case Some(p) => RemoveAt(work, p) + [Merged(work[p], lv, d)]
  }

  /** The working array after the loop has run over all of `left`. */
  function MergeItems(work: seq<Value>, left: seq<Value>, d: nat): seq<Value>
    decreases d, 1, |left|
  {
    if left == [] then work
    else MergeItems(MergeItem(work, left[0], d), left[1..], d)
  }

  /** The right table after the loop has handled the left keys in `done`. */
  ghost function PartialEntries(left: map<string, Value>, right: map<string, Value>,
                                done: set<string>, d: nat): map<string, Value>
    requires done <= left.Keys
  {
    map k | k in right.Keys + done ::
      if k in done then (if k in right then Merged(right[k], left[k], d) else left[k])
      else right[k]
  }

  /** `toml_merge`: the array case removes matched elements from the right
      array and appends in a loop; the table case removes and re-inserts keys
      of the right map in a loop. */
  method TomlMerge(a: Value, b: Value, depth: nat) returns (r: Value)
    ensures r == Merged(a, b, depth)
    decreases depth, 1
  {
    if a.Array? && b.Array? {
      if depth > 0 {
        var items := MergeArrays(a.items, b.items, depth - 1);
        r := Array(items);
      } else {
        r := a;
      }
    } else if a.Table? && b.Table? {
      if depth > 0 {
        var entries := MergeTables(a.entries, b.entries, depth - 1);
        r := Table(entries);
      } else {
        r := a;
      }
    } else {
      r := b;
    }
  }

  /** The array branch of `toml_merge`, one level below `d + 1`. */
  method MergeArrays(leftItems: seq<Value>, right: seq<Value>, d: nat) returns (rightItems: seq<Value>)
    ensures rightItems == MergeItems(right, leftItems, d)
    decreases d + 1, 0
  {
    rightItems := right;
    for i := 0 to |leftItems|
      invariant MergeItems(rightItems, leftItems[i..], d) == MergeItems(right, leftItems, d)
    {
      ghost var before := rightItems;
      var lvalue := leftItems[i];
      var rvalue: Option<Value> := None;
      match NameOf(lvalue) {
        case Some(lname) =>
          match Position(rightItems, lname) {
            case Some(rpos) =>
              rvalue := Some(rightItems[rpos]);
              rightItems := RemoveAt(rightItems, rpos);
            case None =>
          }
        case None =>
      }
      var mvalue := lvalue;
      if rvalue.Some? {
        mvalue := TomlMerge(rvalue.value, lvalue, d);
      }
      rightItems := rightItems + [mvalue];
      assert rightItems == MergeItem(before, lvalue, d);
      assert leftItems[i..][1..] == leftItems[i + 1..];
    }
  }

  /** The table branch of `toml_merge`, one level below `d + 1`. */
  method MergeTables(leftMap: map<string, Value>, right: map<string, Value>, d: nat)
    returns (rightMap: map<string, Value>)
    ensures rightMap == MergeEntries(leftMap, right, d)
    decreases d + 1, 0
  {
    rightMap := right;
    var pending := leftMap.Keys;
    assert rightMap == PartialEntries(leftMap, right, {}, d);
    while pending != {}
      invariant pending <= leftMap.Keys
      invariant rightMap == PartialEntries(leftMap, right, leftMap.Keys - pending, d)
      decreases pending
    {
      ghost var done := leftMap.Keys - pending;
      var lname :| lname in pending;
      PartialStep(leftMap, right, done, d, lname);
      var lvalue := leftMap[lname];
      if lname in rightMap {
        var rvalue := rightMap[lname];
        rightMap := rightMap - {lname};
        var mvalue := TomlMerge(rvalue, lvalue, d);
        rightMap := rightMap[lname := mvalue];
      } else {
        rightMap := rightMap[lname := lvalue];
      }
      pending := pending - {lname};
      assert leftMap.Keys - pending == done + {lname};
    }
    assert leftMap.Keys - pending == leftMap.Keys;
  }

  /** One iteration of the table loop, handling the left key `k`. */
  lemma PartialStep(left: map<string, Value>, right: map<string, Value>,
                    done: set<string>, d: nat, k: string)
    requires done <= left.Keys && k in left.Keys && k !in done
    ensures (k in PartialEntries(left, right, done, d)) == (k in right)
    ensures k in right ==>
              && PartialEntries(left, right, done, d)[k] == right[k]
              && PartialEntries(left, right, done + {k}, d)
                 == (PartialEntries(left, right, done, d) - {k})[k := Merged(right[k], left[k], d)]
    ensures k !in right ==>
              PartialEntries(left, right, done + {k}, d)
              == PartialEntries(left, right, done, d)[k := left[k]]
  {
  }

  // ---------------------------------------------------------------------
  // What the merge does at each pairing of values

  /** Once the depth is used up, two containers of the same kind give the
      first one; any other pairing gives the second. */
  lemma MergeDepthZero(a: Value, b: Value)
    ensures Merged(a, b, 0) == if SameKind(a, b) then a else b
  {
  }

  /** A pairing that is not two arrays or two tables gives the second value
      unchanged, at every depth. */
  lemma MergeMismatch(a: Value, b: Value, depth: nat)
    requires !SameKind(a, b)
    ensures Merged(a, b, depth) == b
  {
  }

  /** Two tables below the depth limit: the keys are the union, keys of only
      one side keep their value, shared keys hold the merge of the second
      table's value with the first's, one level down. */
  lemma TableMerge(l: map<string, Value>, r: map<string, Value>, depth: nat)
    requires depth > 0
    ensures Merged(Table(l), Table(r), depth).Table?
    ensures Merged(Table(l), Table(r), depth).entries.Keys == l.Keys + r.Keys
    ensures forall k :: k in l && k !in r ==> Merged(Table(l), Table(r), depth).entries[k] == l[k]
    ensures forall k :: k in r && k !in l ==> Merged(Table(l), Table(r), depth).entries[k] == r[k]
    ensures forall k :: k in l && k in r ==>
              Merged(Table(l), Table(r), depth).entries[k] == Merged(r[k], l[k], depth - 1)
  {
  }

  /** A key both tables hold with values that are not containers of one kind
      (two scalars, say) keeps the first table's value. */
  lemma SharedScalarKeepsFirst(l: map<string, Value>, r: map<string, Value>, k: string, depth: nat)
    requires depth > 0 && k in l && k in r
    requires !SameKind(r[k], l[k])
    ensures Merged(Table(l), Table(r), depth).entries[k] == l[k]
  {
    TableMerge(l, r, depth);
    MergeMismatch(r[k], l[k], depth - 1);
  }

  /** At the last level a key both tables hold as arrays (or as tables)
      takes the second table's value whole. */
  lemma SharedContainerAtLastLevel(l: map<string, Value>, r: map<string, Value>, k: string)
    requires k in l && k in r && SameKind(r[k], l[k])
    ensures Merged(Table(l), Table(r), 1).entries[k] == r[k]
  {
    TableMerge(l, r, 1);
  }

  /** Merging onto the empty table (the seed of the syntax fold) gives the
      other value back, at any depth above zero. */
  lemma EmptyTableIdentity(v: Value, depth: nat)
    requires depth > 0
    ensures Merged(EmptyTable, v, depth) == v
  {
    if v.Table? {
      var m := Merged(EmptyTable, v, depth).entries;
      TableMerge(map[], v.entries, depth);
      assert m == v.entries;
    }
  }

  // ---------------------------------------------------------------------
  // The array case

  /** One step of the array loop. An element with no string name, or whose
      name no working element has, is appended unchanged; otherwise the
      first working element with that name is removed and its merge with the
      new element is appended. */
  lemma MergeItemStep(work: seq<Value>, lv: Value, d: nat)
    ensures (NameOf(lv).None? || forall j :: 0 <= j < |work| ==> NameOf(work[j]) != NameOf(lv))
            ==> MergeItem(work, lv, d) == work + [lv]
    ensures forall p :: 0 <= p < |work| && NameOf(lv).Some? && NameOf(work[p]) == NameOf(lv)
              && (forall j :: 0 <= j < p ==> NameOf(work[j]) != NameOf(lv))
              ==> MergeItem(work, lv, d) == work[..p] + work[p + 1..] + [Merged(work[p], lv, d)]
  {
    forall p | 0 <= p < |work| && NameOf(lv).Some? && NameOf(work[p]) == NameOf(lv)
               && (forall j :: 0 <= j < p ==> NameOf(work[j]) != NameOf(lv))
      ensures MergeItem(work, lv, d) == work[..p] + work[p + 1..] + [Merged(work[p], lv, d)]
    {
      var q := Position(work, NameOf(lv).value);
      assert q.Some?;
    }
  }

  /** The array loop only ever removes one element and appends one, or
      appends one: the result holds between |work| and |work| + |left|
      elements. */
  lemma {:induction false} MergeItemsLength(work: seq<Value>, left: seq<Value>, d: nat)
    ensures |work| <= |MergeItems(work, left, d)| <= |work| + |left|
    decreases |left|
  {
    if left != [] {
      MergeItemsLength(MergeItem(work, left[0], d), left[1..], d);
    }
  }

  /** The string names of the elements of `s`. */
  function Names(s: seq<Value>): set<string> {
    set i | 0 <= i < |s| && NameOf(s[i]).Some? :: NameOf(s[i]).value
  }

  /** No two elements of `s` carry the same string name. */
  predicate UniqueNames(s: seq<Value>) {
    forall i, j :: 0 <= i < j < |s| && NameOf(s[i]).Some? ==> NameOf(s[i]) != NameOf(s[j])
  }

  /** When no element of `left` finds a match, neither among the original
      elements nor among those appended before it, the result is the
      working array followed by `left`: nothing of either side is dropped. */
  lemma {:induction false} MergeItemsNoMatch(work: seq<Value>, left: seq<Value>, d: nat)
    requires forall i :: 0 <= i < |left| && NameOf(left[i]).Some? ==>
               NameOf(left[i]).value !in Names(work + left[..i])
    ensures MergeItems(work, left, d) == work + left
    decreases |left|
  {
    if left != [] {
      var lv := left[0];
      assert left[..0] == [];
      assert work + left[..0] == work;
      if NameOf(lv).Some? {
        var n := NameOf(lv).value;
        assert n !in Names(work);
      }
      assert MergeItem(work, lv, d) == work + [lv];
      var rest := left[1..];
      forall i | 0 <= i < |rest| && NameOf(rest[i]).Some?
        ensures NameOf(rest[i]).value !in Names((work + [lv]) + rest[..i])
      {
        assert rest[i] == left[i + 1];
        assert (work + [lv]) + rest[..i] == work + left[..i + 1];
      }
      MergeItemsNoMatch(work + [lv], rest, d);
      assert (work + [lv]) + rest == work + left;
    }
  }

  /** Elements of `b` that no name of `names` correlates with, in order. */
  function Unmatched(b: seq<Value>, names: set<string>): seq<Value> {
    if b == [] then []
    else (if Correlated(b[0], names) then [] else [b[0]]) + Unmatched(b[1..], names)
  }

  predicate Correlated(v: Value, names: set<string>) {
    NameOf(v).Some? && NameOf(v).value in names
  }

  /** An element of the left array, merged with the element of `b` that
      carries its name when there is one. */
  function Partner(b: seq<Value>, lv: Value, d: nat): Value {
    match MatchIn(b, lv)
    case None => lv
    case Some(p) => Merged(b[p], lv, d)
  }

  function Combined(b: seq<Value>, left: seq<Value>, d: nat): (r: seq<Value>)
    ensures |r| == |left| && forall i :: 0 <= i < |left| ==> r[i] == Partner(b, left[i], d)
  {
    seq(|left|, i requires 0 <= i < |left| => Partner(b, left[i], d))
  }

  /** With names unique on each side, the array merge keeps the elements of
      the second array that no element of the first names, in their order, and
      follows them with the elements of the first array in their order, each
      merged with the second array's element of the same name. */
  lemma ArrayMergeUnique(a: seq<Value>, b: seq<Value>, depth: nat)
    requires depth > 0 && UniqueNames(a) && UniqueNames(b)
    ensures Merged(Array(a), Array(b), depth)
         == Array(Unmatched(b, Names(a)) + Combined(b, a, depth - 1))
  {
    assert Names([]) == {};
    MergeItemsSplit(b, [], a, depth - 1);
    assert b + [] == b;
  }

  lemma {:induction false} MergeItemsSplit(k: seq<Value>, p: seq<Value>, left: seq<Value>, d: nat)
    requires UniqueNames(k) && UniqueNames(left)
    requires Names(p) !! Names(left)
    ensures MergeItems(k + p, left, d) == Unmatched(k, Names(left)) + p + Combined(k, left, d)
    decreases |left|
  {
    if left == [] {
      UnmatchedNone(k);
      assert Names(left) == {};
    } else {
      var lv := left[0];
      var rest := left[1..];
      SplitFacts(left);
      if NameOf(lv).None? || Position(k, NameOf(lv).value).None? {
        AppendCase(k, p, left, d);
        MergeItemsSplit(k, p + [lv], rest, d);
        AppendRegroup(k, p, left, d);
      } else {
        var j := Position(k, NameOf(lv).value).value;
        MatchCase(k, p, left, d, j);
        MergeItemsSplit(RemoveAt(k, j), p + [Merged(k[j], lv, d)], rest, d);
        MatchRegroup(k, p, left, d, j);
      }
    }
  }

  lemma SplitFacts(left: seq<Value>)
    requires left != [] && UniqueNames(left)
    ensures UniqueNames(left[1..])
    ensures Names(left) == Names([left[0]]) + Names(left[1..])
    ensures NameOf(left[0]).None? ==> Names([left[0]]) == {}
    ensures NameOf(left[0]).Some? ==> Names([left[0]]) == {NameOf(left[0]).value}
    ensures NameOf(left[0]).Some? ==> NameOf(left[0]).value !in Names(left[1..])
  {
    var rest := left[1..];
    assert left == [left[0]] + rest;
    NamesConcat([left[0]], rest);
    forall i, j | 0 <= i < j < |rest| && NameOf(rest[i]).Some?
      ensures NameOf(rest[i]) != NameOf(rest[j])
    {
      assert rest[i] == left[i + 1] && rest[j] == left[j + 1];
    }
    assert NameOf([left[0]][0]) == NameOf(left[0]);
  }

  /** The step in which `left[0]` finds no match: it is appended after `p`. */
  lemma AppendCase(k: seq<Value>, p: seq<Value>, left: seq<Value>, d: nat)
    requires left != [] && UniqueNames(left) && Names(p) !! Names(left)
    requires NameOf(left[0]).None? || Position(k, NameOf(left[0]).value).None?
    ensures MergeItems(k + p, left, d) == MergeItems(k + (p + [left[0]]), left[1..], d)
    ensures Names(p + [left[0]]) !! Names(left[1..])
  {
    var lv := left[0];
    SplitFacts(left);
    NamesConcat(p, [lv]);
    if NameOf(lv).Some? {
      var n := NameOf(lv).value;
      NamesConcat(k, p);
      assert n !in Names(k);
      assert n !in Names(p);
      assert n !in Names(k + p);
      assert Position(k + p, n).None?;
    }
    assert MergeItem(k + p, lv, d) == k + (p + [lv]);
  }

  /** After the append step, the pieces regroup into the shape the split
      states for all of `left`. */
  lemma AppendRegroup(k: seq<Value>, p: seq<Value>, left: seq<Value>, d: nat)
    requires left != [] && UniqueNames(left)
    requires NameOf(left[0]).None? || Position(k, NameOf(left[0]).value).None?
    ensures Unmatched(k, Names(left[1..])) + (p + [left[0]]) + Combined(k, left[1..], d)
         == Unmatched(k, Names(left)) + p + Combined(k, left, d)
  {
    var lv := left[0];
    SplitFacts(left);
    if NameOf(lv).Some? {
      var n := NameOf(lv).value;
      assert n !in Names(k);
      UnmatchedWithout(k, Names(left[1..]), n);
      assert Names(left) == Names(left[1..]) + {n};
    } else {
      assert Names(left) == Names(left[1..]);
    }
    assert Partner(k, lv, d) == lv;
    var u := Unmatched(k, Names(left));
    var c := Combined(k, left[1..], d);
    assert Combined(k, left, d) == [lv] + c;
    MoveAcross(u, p, lv, c);
  }

  /** The step in which `left[0]` matches `k[j]`: that element leaves `k` and
      the merge of the two is appended after `p`. */
  lemma MatchCase(k: seq<Value>, p: seq<Value>, left: seq<Value>, d: nat, j: nat)
    requires left != [] && UniqueNames(k) && UniqueNames(left) && Names(p) !! Names(left)
    requires NameOf(left[0]).Some? && Position(k, NameOf(left[0]).value) == Some(j)
    ensures j < |k|
    ensures MergeItems(k + p, left, d)
         == MergeItems(RemoveAt(k, j) + (p + [Merged(k[j], left[0], d)]), left[1..], d)
    ensures UniqueNames(RemoveAt(k, j))
    ensures Names(p + [Merged(k[j], left[0], d)]) !! Names(left[1..])
  {
    var lv := left[0];
    var n := NameOf(lv).value;
    var m := Merged(k[j], lv, d);
    SplitFacts(left);
    MatchStep(k, p, lv, d, j);
    UniqueRemoveAt(k, j);
    MergedKeepsName(k[j], lv, d);
    assert Names([m]) == {n} by {
      assert NameOf([m][0]) == Some(n);
    }
    NamesConcat(p, [m]);
  }

  /** After the match step, the pieces regroup into the shape the split
      states for all of `left`. */
  lemma MatchRegroup(k: seq<Value>, p: seq<Value>, left: seq<Value>, d: nat, j: nat)
    requires left != [] && UniqueNames(k) && UniqueNames(left)
    requires NameOf(left[0]).Some? && Position(k, NameOf(left[0]).value) == Some(j)
    ensures j < |k|
    ensures Unmatched(RemoveAt(k, j), Names(left[1..])) + (p + [Merged(k[j], left[0], d)])
              + Combined(RemoveAt(k, j), left[1..], d)
         == Unmatched(k, Names(left)) + p + Combined(k, left, d)
  {
    var lv := left[0];
    var rest := left[1..];
    var n := NameOf(lv).value;
    var m := Merged(k[j], lv, d);
    SplitFacts(left);
    var u := Unmatched(k, Names(left));
    var c := Combined(k, rest, d);
    assert Unmatched(RemoveAt(k, j), Names(rest)) == u by {
      UnmatchedRemoveAt(k, j, n, Names(rest));
      assert Names(left) == Names(rest) + {n};
    }
    CombinedRemoveAt(k, j, rest, d, n);
    assert Combined(k, left, d) == [m] + c by {
      assert Partner(k, lv, d) == m;
    }
    MoveAcross(u, p, m, c);
  }

  /** Moving one element across the boundary between two pieces. */
  lemma MoveAcross(u: seq<Value>, p: seq<Value>, x: Value, c: seq<Value>)
    ensures u + (p + [x]) + c == u + p + ([x] + c)
  {
  }

  /** The loop step at a match: the merged element moves to the end. */
  lemma MatchStep(k: seq<Value>, p: seq<Value>, lv: Value, d: nat, j: nat)
    requires NameOf(lv).Some? && Position(k, NameOf(lv).value) == Some(j)
    ensures j < |k|
    ensures MergeItem(k + p, lv, d) == RemoveAt(k, j) + (p + [Merged(k[j], lv, d)])
  {
    var n := NameOf(lv).value;
    assert Position(k + p, n) == Some(j) by {
      forall i | 0 <= i < |k| ensures (k + p)[i] == k[i] { }
    }
    assert (k + p)[j] == k[j];
    assert RemoveAt(k + p, j) == RemoveAt(k, j) + p;
  }

  /** Removing the element named `n` changes no partner of the elements
      that do not carry that name. */
  lemma CombinedRemoveAt(k: seq<Value>, j: nat, rest: seq<Value>, d: nat, n: string)
    requires j < |k| && NameOf(k[j]) == Some(n) && n !in Names(rest)
    ensures Combined(RemoveAt(k, j), rest, d) == Combined(k, rest, d)
  {
    forall i | 0 <= i < |rest|
      ensures Partner(RemoveAt(k, j), rest[i], d) == Partner(k, rest[i], d)
    {
      assert NameOf(rest[i]) != Some(n);
      PartnerRemoveAt(k, j, rest[i], d);
    }
  }

  // Helpers for the array lemmas.

  lemma NamesConcat(s: seq<Value>, t: seq<Value>)
    ensures Names(s + t) == Names(s) + Names(t)
  {
    forall n | n in Names(s + t) ensures n in Names(s) + Names(t) {
      var i :| 0 <= i < |s + t| && NameOf((s + t)[i]).Some? && NameOf((s + t)[i]).value == n;
      if i < |s| {
        assert (s + t)[i] == s[i];
      } else {
        assert (s + t)[i] == t[i - |s|];
      }
    }
    forall n | n in Names(s) ensures n in Names(s + t) {
      var i :| 0 <= i < |s| && NameOf(s[i]).Some? && NameOf(s[i]).value == n;
      assert (s + t)[i] == s[i];
    }
    forall n | n in Names(t) ensures n in Names(s + t) {
      var i :| 0 <= i < |t| && NameOf(t[i]).Some? && NameOf(t[i]).value == n;
      assert (s + t)[i + |s|] == t[i];
    }
  }

  lemma {:induction false} UnmatchedNone(k: seq<Value>)
    ensures Unmatched(k, {}) == k
    decreases |k|
  {
    if k != [] {
      UnmatchedNone(k[1..]);
    }
  }

  lemma {:induction false} UnmatchedConcat(s: seq<Value>, t: seq<Value>, names: set<string>)
    ensures Unmatched(s + t, names) == Unmatched(s, names) + Unmatched(t, names)
    decreases |s|
  {
    if s == [] {
      assert s + t == t;
    } else {
      var head := if Correlated(s[0], names) then [] else [s[0]];
      assert (s + t)[0] == s[0] && (s + t)[1..] == s[1..] + t;
      calc {
        Unmatched(s + t, names);
        head + Unmatched(s[1..] + t, names);
        { UnmatchedConcat(s[1..], t, names); }
        head + (Unmatched(s[1..], names) + Unmatched(t, names));
        (head + Unmatched(s[1..], names)) + Unmatched(t, names);
      }
    }
  }

  lemma {:induction false} UnmatchedSame(k: seq<Value>, names: set<string>, others: set<string>)
    requires forall n :: n in Names(k) ==> (n in names <==> n in others)
    ensures Unmatched(k, names) == Unmatched(k, others)
    decreases |k|
  {
    if k != [] {
      assert k == [k[0]] + k[1..];
      NamesConcat([k[0]], k[1..]);
      if NameOf(k[0]).Some? {
        assert NameOf([k[0]][0]).Some?;
        assert NameOf(k[0]).value in Names([k[0]]);
      }
      UnmatchedSame(k[1..], names, others);
    }
  }

  lemma UniqueRemoveAt(k: seq<Value>, j: nat)
    requires j < |k| && UniqueNames(k)
    ensures UniqueNames(RemoveAt(k, j))
  {
    var k' := RemoveAt(k, j);
    forall a, b | 0 <= a < b < |k'| && NameOf(k'[a]).Some?
      ensures NameOf(k'[a]) != NameOf(k'[b])
    {
      var a0 := if a < j then a else a + 1;
      var b0 := if b < j then b else b + 1;
      assert k'[a] == k[a0] && k'[b] == k[b0];
    }
  }

  /** Removing the element named `n` from a uniquely named array leaves the
      elements that `names` plus `n` leave unmatched. */
  lemma UnmatchedRemoveAt(k: seq<Value>, j: nat, n: string, names: set<string>)
    requires j < |k| && UniqueNames(k) && NameOf(k[j]) == Some(n) && n !in names
    ensures Unmatched(RemoveAt(k, j), names) == Unmatched(k, names + {n})
  {
    var before, x, after := k[..j], k[j], k[j + 1..];
    var more := names + {n};
    assert k == (before + [x]) + after;
    assert Unmatched([x], more) == [] by {
      assert Correlated(x, more);
      assert [x][1..] == [];
    }
    NameOnlyAt(k, j, n);
    calc {
      Unmatched(k, more);
      { UnmatchedConcat(before + [x], after, more); }
      Unmatched(before + [x], more) + Unmatched(after, more);
      { UnmatchedConcat(before, [x], more); }
      Unmatched(before, more) + Unmatched(after, more);
      { UnmatchedWithout(before, names, n); UnmatchedWithout(after, names, n); }
      Unmatched(before, names) + Unmatched(after, names);
      { UnmatchedConcat(before, after, names); }
      Unmatched(before + after, names);
    }
  }

  lemma NameOnlyAt(k: seq<Value>, j: nat, n: string)
    requires j < |k| && UniqueNames(k) && NameOf(k[j]) == Some(n)
    ensures n !in Names(k[..j]) && n !in Names(k[j + 1..])
  {
  }

  lemma UnmatchedWithout(s: seq<Value>, names: set<string>, n: string)
    requires n !in Names(s)
    ensures Unmatched(s, names) == Unmatched(s, names + {n})
  {
    UnmatchedSame(s, names, names + {n});
  }

  /** Removing an element of another name does not change whom `lv` is
      merged with. */
  lemma PartnerRemoveAt(k: seq<Value>, j: nat, lv: Value, d: nat)
    requires j < |k| && NameOf(lv) != NameOf(k[j])
    ensures Partner(RemoveAt(k, j), lv, d) == Partner(k, lv, d)
  {
    if NameOf(lv).Some? {
      var n := NameOf(lv).value;
      var k' := RemoveAt(k, j);
      RemoveAtIndex(k, j);
      var q := Position(k, n);
      if q.Some? {
        assert q.value != j;
        var e := if q.value < j then q.value else q.value - 1;
        assert k'[e] == k[q.value];
        assert Position(k', n) == Some(e);
      } else {
        assert Position(k', n).None?;
      }
    }
  }

  /** Where each element of `k` lands once `k[j]` is removed. */
  lemma RemoveAtIndex(k: seq<Value>, j: nat)
    requires j < |k|
    ensures |RemoveAt(k, j)| == |k| - 1
    ensures forall i :: 0 <= i < |k| - 1 ==> RemoveAt(k, j)[i] == k[if i < j then i else i + 1]
  {
  }

  /** Merging two elements that share a name keeps that name. */
  lemma MergedKeepsName(x: Value, y: Value, d: nat)
    requires NameOf(x).Some? && NameOf(x) == NameOf(y)
    ensures NameOf(Merged(x, y, d)) == NameOf(x)
  {
    if d > 0 {
      TableMerge(x.entries, y.entries, d);
      MergeMismatch(y.entries["name"], x.entries["name"], d - 1);
    }
  }

  // ---------------------------------------------------------------------
  // Worked cases

  /** One fold step of the syntax load. The accumulator (the earlier, more
      specific source) keeps its `language-server`; the later source's
      `file-types` array replaces the earlier one, because that array is met
      at depth zero. */
  lemma LanguageFoldExample()
    ensures Merged(
              Table(map["language" := Array([Table(map["name" := Str("rust"),
                "file-types" := Array([Str("x")]), "language-server" := Str("my")])])]),
              Table(map["language" := Array([Table(map["name" := Str("rust"),
                "file-types" := Array([Str("rs")]), "language-server" := Str("ra")])])]),
              3)
         == Table(map["language" := Array([Table(map["name" := Str("rust"),
                "file-types" := Array([Str("rs")]), "language-server" := Str("my")])])])
  {
    var acc := map["language" := Array([Table(FoldEarly)])];
    var x := map["language" := Array([Table(FoldLate)])];
    TableMerge(acc, x, 3);
    FoldArrayStep();
    assert Merged(Table(acc), Table(x), 3).entries == map["language" := Array([Table(FoldResult)])];
  }

  const FoldEarly: map<string, Value> :=
    map["name" := Str("rust"), "file-types" := Array([Str("x")]), "language-server" := Str("my")]
  const FoldLate: map<string, Value> :=
    map["name" := Str("rust"), "file-types" := Array([Str("rs")]), "language-server" := Str("ra")]
  const FoldResult: map<string, Value> :=
    map["name" := Str("rust"), "file-types" := Array([Str("rs")]), "language-server" := Str("my")]

  /** The `language` arrays of the fold step, merged two levels down. */
  lemma FoldArrayStep()
    ensures Merged(Array([Table(FoldLate)]), Array([Table(FoldEarly)]), 2) == Array([Table(FoldResult)])
  {
    FoldEntryStep();
    assert NameOf(Table(FoldLate)) == Some("rust");
    assert NameOf(Table(FoldEarly)) == Some("rust");
    assert Position([Table(FoldEarly)], "rust") == Some(0);
    assert MergeItem([Table(FoldEarly)], Table(FoldLate), 1) == [Table(FoldResult)];
    assert [Table(FoldLate)][1..] == [];
  }

  /** The two `rust` entries of the fold step, merged at the last level
      that looks inside. */
  lemma FoldEntryStep()
    ensures Merged(Table(FoldEarly), Table(FoldLate), 1) == Table(FoldResult)
  {
    TableMerge(FoldEarly, FoldLate, 1);
    MergeMismatch(FoldLate["name"], FoldEarly["name"], 0);
    MergeMismatch(FoldLate["language-server"], FoldEarly["language-server"], 0);
    MergeDepthZero(FoldLate["file-types"], FoldEarly["file-types"]);
    assert Merged(Table(FoldEarly), Table(FoldLate), 1).entries == FoldResult;
  }

  /** The match for an element is searched in the working array, which
      already holds the elements appended earlier in the same loop: the
      second `"a"` below merges with the first rather than being appended. */
  lemma MatchesAppendedElement()
    ensures Merged(
              Array([Table(map["name" := Str("a"), "v" := Integer(1)]),
                     Table(map["name" := Str("a"), "v" := Integer(2)])]),
              Array([]),
              2)
         == Array([Table(map["name" := Str("a"), "v" := Integer(1)])])
  {
    var e1 := map["name" := Str("a"), "v" := Integer(1)];
    var e2 := map["name" := Str("a"), "v" := Integer(2)];
    assert NameOf(Table(e1)) == Some("a");
    assert MergeItem([], Table(e1), 1) == [Table(e1)];
    SecondMatchesFirst(e1, e2);
    assert [Table(e1), Table(e2)][1..] == [Table(e2)];
  }

  /** The second `"a"` finds the first one in the working array, and the
      merge at the last level keeps the first one's scalars. */
  lemma SecondMatchesFirst(e1: map<string, Value>, e2: map<string, Value>)
    requires e1 == map["name" := Str("a"), "v" := Integer(1)]
    requires e2 == map["name" := Str("a"), "v" := Integer(2)]
    ensures MergeItem([Table(e1)], Table(e2), 1) == [Table(e1)]
  {
    assert NameOf(Table(e2)) == Some("a");
    assert Position([Table(e1)], "a") == Some(0);
    FirstScalarsKept(e1, e2);
  }

  lemma FirstScalarsKept(e1: map<string, Value>, e2: map<string, Value>)
    requires e1 == map["name" := Str("a"), "v" := Integer(1)]
    requires e2 == map["name" := Str("a"), "v" := Integer(2)]
    ensures Merged(Table(e1), Table(e2), 1) == Table(e1)
  {
    TableMerge(e1, e2, 1);
    MergeMismatch(e2["name"], e1["name"], 0);
    MergeMismatch(e2["v"], e1["v"], 0);
    assert Merged(Table(e1), Table(e2), 1).entries == e1;
  }

  /** An element of the second array that nothing in the first names stays,
      at the front: the `"go"` entry below is not dropped. */
  lemma UnmatchedElementKept()
    ensures Merged(
              Array([Table(map["name" := Str("rust"), "debugger" := Str("lldb")])]),
              Array([Table(map["name" := Str("rust"), "language-server" := Str("rust-analyzer")]),
                     Table(map["name" := Str("go"), "language-server" := Str("gopls")])]),
              2)
         == Array([Table(map["name" := Str("go"), "language-server" := Str("gopls")]),
                   Table(map["name" := Str("rust"), "language-server" := Str("rust-analyzer"),
                             "debugger" := Str("lldb")])])
  {
    var hi := map["name" := Str("rust"), "debugger" := Str("lldb")];
    var lo := map["name" := Str("rust"), "language-server" := Str("rust-analyzer")];
    var go := map["name" := Str("go"), "language-server" := Str("gopls")];
    assert NameOf(Table(hi)) == Some("rust");
    assert NameOf(Table(go)) == Some("go");
    assert Position([Table(lo), Table(go)], "rust") == Some(0);
    RustEntriesMerge(lo, hi);
    assert RemoveAt([Table(lo), Table(go)], 0) == [Table(go)];
    assert MergeItem([Table(lo), Table(go)], Table(hi), 1) == [Table(go), Merged(Table(lo), Table(hi), 1)];
  }

  /** The two `rust` entries merge into one holding both programs. */
  lemma RustEntriesMerge(lo: map<string, Value>, hi: map<string, Value>)
    requires lo == map["name" := Str("rust"), "language-server" := Str("rust-analyzer")]
    requires hi == map["name" := Str("rust"), "debugger" := Str("lldb")]
    ensures Merged(Table(lo), Table(hi), 1).entries
         == map["name" := Str("rust"), "language-server" := Str("rust-analyzer"), "debugger" := Str("lldb")]
  {
    TableMerge(lo, hi, 1);
  }

  /** Merging an array with itself is not the identity: an element without a
      name is matched by nothing and so appears twice. */
  lemma SelfMergeDuplicatesUnnamed()
    ensures Merged(Array([Integer(1)]), Array([Integer(1)]), 1) == Array([Integer(1), Integer(1)])
  {
    assert MergeItem([Integer(1)], Integer(1), 0) == [Integer(1), Integer(1)];
  }
}
