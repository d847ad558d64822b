/** Positions of extreme values in a sequence, with the tie-break policies the program relies on. */
module Extremes {

  /** `i` holds a minimum and no earlier position does (numpy's argmin). */
  predicate IsFirstMin(ds: seq<int>, i: int)
  {
    && 0 <= i < |ds|
    && (forall j :: 0 <= j < |ds| ==> ds[i] <= ds[j])
    && (forall j :: 0 <= j < i ==> ds[i] < ds[j])
  }

  /** `i` holds a minimum and no later position does. */
  predicate IsLastMin(ds: seq<int>, i: int)
  {
    && 0 <= i < |ds|
    && (forall j :: 0 <= j < |ds| ==> ds[i] <= ds[j])
    && (forall j :: i < j < |ds| ==> ds[i] < ds[j])
  }

  /** `i` holds a maximum and no earlier position does (numpy's argmax). */
  predicate IsFirstMax(ds: seq<int>, i: int)
  {
    && 0 <= i < |ds|
    && (forall j :: 0 <= j < |ds| ==> ds[j] <= ds[i])
    && (forall j :: 0 <= j < i ==> ds[j] < ds[i])
  }

  /** Left-to-right scan that moves only on a strictly smaller value. */
  function ArgminFirst(ds: seq<int>): (i: nat)
    requires |ds| > 0
    ensures IsFirstMin(ds, i)
    decreases |ds|
  {
    if |ds| == 1 then 0
    else
      var k := ArgminFirst(ds[..|ds| - 1]);
      if ds[|ds| - 1] < ds[k] then |ds| - 1 else k
  }

  /** Left-to-right scan that moves only on a strictly larger value. */
  function ArgmaxFirst(ds: seq<int>): (i: nat)
    requires |ds| > 0
    ensures IsFirstMax(ds, i)
    decreases |ds|
  {
    if |ds| == 1 then 0
    else
      var k := ArgmaxFirst(ds[..|ds| - 1]);
      if ds[|ds| - 1] > ds[k] then |ds| - 1 else k
  }

  /** Right-to-left scan that moves only on a strictly smaller value. */
  function ArgminLast(ds: seq<int>): (i: nat)
    requires |ds| > 0
    ensures IsLastMin(ds, i)
    decreases |ds|
  {
    if |ds| == 1 then 0
    else
      var k := 1 + ArgminLast(ds[1..]);
      if ds[0] < ds[k] then 0 else k
  }

  function Min(ds: seq<int>): (m: int)
    requires |ds| > 0
    ensures m in ds
    ensures forall j :: 0 <= j < |ds| ==> m <= ds[j]
    decreases |ds|
  {
    if |ds| == 1 then ds[0]
    else
      var m' := Min(ds[1..]);
      if ds[0] <= m' then ds[0] else m'
  }

  lemma FirstMinUnique(ds: seq<int>, i: int, j: int)
    requires IsFirstMin(ds, i) && IsFirstMin(ds, j)
    ensures i == j
  {
    assert ds[i] == ds[j];
  }

  lemma LastMinUnique(ds: seq<int>, i: int, j: int)
    requires IsLastMin(ds, i) && IsLastMin(ds, j)
    ensures i == j
  {
    assert ds[i] == ds[j];
  }

  lemma FirstMaxUnique(ds: seq<int>, i: int, j: int)
    requires IsFirstMax(ds, i) && IsFirstMax(ds, j)
    ensures i == j
  {
    assert ds[i] == ds[j];
  }
}
