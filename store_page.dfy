/** The category filter of the store page:
    `[...new Set(templates?.map(t => t.category) ?? [])]`. */
module StorePage {
  import opened Types

  /** Where `x` first occurs in `xs`. */
  function FirstIndex(xs: seq<string>, x: string): (k: nat)
    requires x in xs
    ensures k < |xs| && xs[k] == x && x !in xs[..k]
    decreases |xs|
  {
    if xs[0] == x then 0
    else
      var k := FirstIndex(xs[1..], x);
      assert xs[1..][..k] == xs[1..k + 1];
      k + 1
  }

  /** The first occurrence is the only index with `x` there and none before. */
  lemma FirstIndexUnique(xs: seq<string>, x: string, k: nat)
    requires k < |xs| && xs[k] == x && x !in xs[..k]
    ensures FirstIndex(xs, x) == k
  {
    var k' := FirstIndex(xs, x);
    assert forall i :: 0 <= i < k ==> xs[..k][i] == xs[i];
    assert forall i :: 0 <= i < k' ==> xs[..k'][i] == xs[i];
  }

  lemma FirstIndexOfAppend(xs: seq<string>, y: string, x: string)
    requires x in xs
    ensures FirstIndex(xs + [y], x) == FirstIndex(xs, x)
  {
    var k := FirstIndex(xs, x);
    assert (xs + [y])[..k] == xs[..k];
    FirstIndexUnique(xs + [y], x, k);
  }

  lemma FirstIndexOfNew(xs: seq<string>, x: string)
    requires x !in xs
    ensures FirstIndex(xs + [x], x) == |xs|
  {
    assert (xs + [x])[..|xs|] == xs;
    FirstIndexUnique(xs + [x], x, |xs|);
  }

  /** The distinct values of `xs` in first-occurrence order, as inserting
      them one by one into a JavaScript Set and spreading it yields. */
  function Dedup(xs: seq<string>): (r: seq<string>)
    ensures forall i, j :: 0 <= i < j < |r| ==> r[i] != r[j]
    ensures forall x :: x in r <==> x in xs
    ensures forall i, j :: 0 <= i < j < |r| ==> FirstIndex(xs, r[i]) < FirstIndex(xs, r[j])
    decreases |xs|
  {
    if xs == [] then []
    else
      var init := xs[..|xs| - 1];
      var x := xs[|xs| - 1];
      assert xs == init + [x];
      var d := Dedup(init);
      forall y | y in init ensures FirstIndex(xs, y) == FirstIndex(init, y) {
        FirstIndexOfAppend(init, x, y);
      }
      if x in d then d
      else
        FirstIndexOfNew(init, x);
        d + [x]
  }

  /** `templates.map(t => t.category)`. */
  function CategoryList(templates: seq<Template>): seq<string> {
    seq(|templates|, i requires 0 <= i < |templates| => templates[i].category)
  }

  /** No duplicates; every template's category is listed; every entry is some
      template's category; entries in order of first occurrence; null
      templates give the empty list. */
  function Categories(templates: Option<seq<Template>>): (r: seq<string>)
    ensures templates.None? ==> r == []
    ensures forall i, j :: 0 <= i < j < |r| ==> r[i] != r[j]
    ensures templates.Some? ==> forall t :: t in templates.value ==> t.category in r
    ensures templates.Some? ==> forall c :: c in r ==> exists t :: t in templates.value && t.category == c
    ensures templates.Some? ==> forall i, j :: 0 <= i < j < |r| ==>
      r[i] in CategoryList(templates.value) && r[j] in CategoryList(templates.value) &&
      FirstIndex(CategoryList(templates.value), r[i]) < FirstIndex(CategoryList(templates.value), r[j])
  {
    match templates
    case None => []
    case Some(ts) =>
      var cs := CategoryList(ts);
      var r := Dedup(cs);
      assert forall t :: t in ts ==> t.category in cs by {
        forall t | t in ts ensures t.category in cs {
          var i :| 0 <= i < |ts| && ts[i] == t;
          assert cs[i] == t.category;
        }
      }
      assert forall c :: c in cs ==> exists t :: t in ts && t.category == c by {
        forall c | c in cs ensures exists t :: t in ts && t.category == c {
          var i :| 0 <= i < |cs| && cs[i] == c;
          assert ts[i] in ts;
        }
      }
      r
  }
}
