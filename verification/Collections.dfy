/** Options and ordered lists without repeats, shared by the other modules. */
module Collections {

  datatype Option<+T> = None | Some(value: T)

  /** No element occurs twice. */
  ghost predicate Distinct<T>(xs: seq<T>) {
    forall i, j :: 0 <= i < j < |xs| ==> xs[i] != xs[j]
  }

  /** `acc` with each element of `xs` appended that is not there yet, in order. */
  function AddNew<T(==)>(acc: seq<T>, xs: seq<T>): (r: seq<T>)
    ensures acc <= r
    decreases |xs|
  {
    if xs == [] then acc
    else AddNew(if xs[0] in acc then acc else acc + [xs[0]], xs[1..])
  }

  lemma {:induction false} AddNewAppend<T>(acc: seq<T>, xs: seq<T>, ys: seq<T>)
    ensures AddNew(acc, xs + ys) == AddNew(AddNew(acc, xs), ys)
    decreases |xs|
  {
    if xs == [] {
      assert xs + ys == ys;
    } else {
      assert (xs + ys)[1..] == xs[1..] + ys;
      AddNewAppend(if xs[0] in acc then acc else acc + [xs[0]], xs[1..], ys);
    }
  }

  lemma {:induction false} AddNewMembers<T>(acc: seq<T>, xs: seq<T>)
    requires Distinct(acc)
    ensures Distinct(AddNew(acc, xs))
    ensures forall x :: x in AddNew(acc, xs) <==> x in acc || x in xs
    decreases |xs|
  {
    if xs != [] {
      AddNewMembers(if xs[0] in acc then acc else acc + [xs[0]], xs[1..]);
      assert forall x :: x in xs <==> x == xs[0] || x in xs[1..];
    }
  }

  lemma {:induction false} AddNewHas<T>(acc: seq<T>, xs: seq<T>, x: T)
    ensures x in AddNew(acc, xs) <==> x in acc || x in xs
    decreases |xs|
  {
    if xs != [] {
      AddNewHas(if xs[0] in acc then acc else acc + [xs[0]], xs[1..], x);
      assert x in xs <==> x == xs[0] || x in xs[1..];
    }
  }

  /** Adding what was already stripped of repeats adds the same. */
  lemma {:induction false} AddNewNested<T>(acc: seq<T>, b: seq<T>, xs: seq<T>)
    ensures AddNew(acc, AddNew(b, xs)) == AddNew(AddNew(acc, b), xs)
    decreases |xs|
  {
    if xs != [] {
      var x, rest := xs[0], xs[1..];
      var b' := if x in b then b else b + [x];
      AddNewNested(acc, b', rest);
      AddNewHas(acc, b, x);
      AddNewAppend(acc, b, [x]);
      assert [x][1..] == [];
    }
  }

  /** `at` are the places where the elements of `r` first come in `xs`, one behind the other. */
  ghost predicate FirstPlaces<T>(xs: seq<T>, r: seq<T>, at: seq<nat>) {
    && |at| == |r| && (forall i :: 0 <= i < |at| ==> at[i] < |xs| && xs[at[i]] == r[i])
    && (forall i, k :: 0 <= i < |at| && 0 <= k < at[i] ==> xs[k] != r[i])
    && forall i, j :: 0 <= i < j < |at| ==> at[i] < at[j]
  }

  lemma OneMoreSeen<T>(xs: seq<T>, x: T, r: seq<T>, at: seq<nat>)
    requires FirstPlaces(xs, r, at)
    ensures FirstPlaces(xs + [x], r, at)
    ensures x !in xs ==> FirstPlaces(xs + [x], r + [x], at + [|xs|])
  {}

  lemma AddNewOne<T>(init: seq<T>, x: T)
    ensures AddNew([], init + [x]) == if x in init then AddNew([], init) else AddNew([], init) + [x]
  {
    AddNewAppend([], init, [x]);
    AddNewHas([], init, x);
    assert [x][1..] == [];
  }

  /** What is left of repeats is all there was, in the order in which it first came. */
  lemma {:induction false} FirstsInOrder<T>(xs: seq<T>) returns (at: seq<nat>)
    ensures FirstPlaces(xs, AddNew([], xs), at)
    decreases |xs|
  {
    if xs == [] {
      at := [];
    } else {
      var init, x := xs[..|xs| - 1], xs[|xs| - 1];
      assert xs == init + [x];
      at := FirstsInOrder(init);
      AddNewOne(init, x);
      OneMoreSeen(init, x, AddNew([], init), at);
      at := if x in init then at else at + [|init|];
    }
  }
}
