/**
 * A pandas column after `pd.to_numeric(column, errors="coerce")`: one option per cell,
 * None where the cell could not be read as a number.
 */
module Series {
  import opened Wrappers

  /** `.dropna()`: the numbers of the column, in row order. */
  function Somes(xs: seq<Option<real>>): (r: seq<real>)
    ensures |r| <= |xs|
    ensures forall k :: 0 <= k < |r| ==> Some(r[k]) in xs
  {
    if xs == [] then []
    else
      var init := Somes(xs[..|xs| - 1]);
      assert forall k :: 0 <= k < |init| ==> Some(init[k]) in xs by {
        forall k | 0 <= k < |init| ensures Some(init[k]) in xs {
          assert Some(init[k]) in xs[..|xs| - 1];
        }
      }
      match xs[|xs| - 1]
      case Some(v) => init + [v]
      case None => init
  }

  /** `dropna()` of a single cell: its number, if it has one. */
  lemma SomesUnit(x: Option<real>)
    ensures Somes([x]) == if x.Some? then [x.value] else []
  {
    assert [x][..0] == [];
  }

  /** `dropna()` of two columns laid end to end is the two `dropna()`s laid end to end. */
  lemma {:induction false} SomesAppend(a: seq<Option<real>>, b: seq<Option<real>>)
    ensures Somes(a + b) == Somes(a) + Somes(b)
    decreases |b|
  {
    if b == [] {
      assert a + b == a;
    } else {
      var c := a + b;
      assert c[..|c| - 1] == a + b[..|b| - 1];
      assert c[|c| - 1] == b[|b| - 1];
      SomesAppend(a, b[..|b| - 1]);
    }
  }

  /** `dropna()` is empty exactly when no cell holds a number. */
  lemma {:induction false} SomesEmpty(xs: seq<Option<real>>)
    ensures Somes(xs) == [] <==> forall k :: 0 <= k < |xs| ==> xs[k].None?
    decreases |xs|
  {
    if xs != [] {
      var init := xs[..|xs| - 1];
      SomesEmpty(init);
      assert forall k :: 0 <= k < |init| ==> init[k] == xs[k];
    }
  }

  /** The first element of `dropna()` is the column's first number: every cell before it is empty. */
  lemma {:induction false} SomesFirst(xs: seq<Option<real>>)
    ensures Somes(xs) != [] ==>
      exists k :: 0 <= k < |xs| && xs[k] == Some(Somes(xs)[0]) && forall j :: 0 <= j < k ==> xs[j].None?
    decreases |xs|
  {
    if Somes(xs) != [] {
      var init := xs[..|xs| - 1];
      assert xs == init + [xs[|xs| - 1]];
      SomesAppend(init, [xs[|xs| - 1]]);
      SomesUnit(xs[|xs| - 1]);
      SomesFirst(init);
      if Somes(init) != [] {
        var k :| 0 <= k < |init| && init[k] == Some(Somes(init)[0]) && forall j :: 0 <= j < k ==> init[j].None?;
        assert xs[k] == init[k];
        assert forall j :: 0 <= j < k ==> xs[j] == init[j];
      } else {
        SomesEmpty(init);
        assert forall j :: 0 <= j < |xs| - 1 ==> xs[j] == init[j];
        assert xs[|xs| - 1] == Some(Somes(xs)[0]);
      }
    }
  }

  /**
   * `.dropna().iloc[-1]` with the IndexError of an all-missing column turned into None:
   * the last cell that holds a number.
   */
  function LastSome(xs: seq<Option<real>>): (r: Option<real>)
    ensures r.None? <==> forall k :: 0 <= k < |xs| ==> xs[k].None?
    ensures r.Some? ==> exists k :: 0 <= k < |xs| && xs[k] == r && forall j :: k < j < |xs| ==> xs[j].None?
  {
    if xs == [] then None
    else if xs[|xs| - 1].Some? then xs[|xs| - 1]
    else
      var init := xs[..|xs| - 1];
      var r := LastSome(init);
      assert r.Some? ==> exists k :: 0 <= k < |xs| && xs[k] == r && forall j :: k < j < |xs| ==> xs[j].None? by {
        if r.Some? {
          var k :| 0 <= k < |init| && init[k] == r && forall j :: k < j < |init| ==> init[j].None?;
          assert xs[k] == r && forall j :: k < j < |xs| ==> xs[j].None?;
        }
      }
      r
  }

  /** The last number of a column is the last element of its `dropna()`. */
  lemma {:induction false} LastSomeIsLastOfSomes(xs: seq<Option<real>>)
    ensures LastSome(xs) == if Somes(xs) == [] then None else Some(Somes(xs)[|Somes(xs)| - 1])
  {
    if xs != [] && xs[|xs| - 1].None? {
      LastSomeIsLastOfSomes(xs[..|xs| - 1]);
    }
  }
}
