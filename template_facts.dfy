/** What the template patcher promises, stated over paths: which widget is
    chosen, that it is the only node that changes and how, and that a
    template without a reachable html widget comes back as it was. */
module TemplateFacts {
  import opened Json
  import opened Template

  /** Every dict key on the path is one the search descends into. */
  predicate ViaSearchKeys(p: Path) {
    forall n :: 0 <= n < |p| && p[n].Field? ==> p[n].key in SearchKeys
  }

  /** `p` leads to a node of `j` along `components`, `cells` and list items only. */
  predicate Reaches(j: Json, p: Path) {
    Get(j, p).Some? && ViaSearchKeys(p)
  }

  // --- the search order lists exactly the reachable nodes ---------------

  lemma UnderReaches(j: Json, s: Step, c: Json, ps: seq<Path>)
    requires Get(j, [s]) == Some(c)
    requires s.Field? ==> s.key in SearchKeys
    requires forall p :: p in ps ==> Reaches(c, p)
    ensures forall p :: p in Under(s, ps) ==> Reaches(j, p)
  {
    var us := Under(s, ps);
    forall n | 0 <= n < |us|
      ensures Reaches(j, us[n])
    {
      var q := ps[n];
      assert Reaches(c, q);
      StepDown(j, s, c, q, JNull);
      var p := [s] + q;
      assert p == us[n];
      forall k | 0 <= k < |p| && p[k].Field?
        ensures p[k].key in SearchKeys
      {
        if k > 0 { assert p[k] == q[k - 1]; }
      }
    }
  }

  /** Every path in the search order leads through search keys to a node. */
  lemma {:induction false} SearchOrderSound(j: Json)
    ensures forall p :: p in SearchOrder(j) ==> Reaches(j, p)
    decreases j, 1, 0
  {
    assert Reaches(j, []);
    match j
    case JObj(m) => KeysOrderSound(m, 0);
    case JArr(xs) => ItemsOrderSound(xs, 0);
    case _ =>
  }

  lemma {:induction false} KeysOrderSound(m: map<string, Json>, i: nat)
    ensures forall p :: p in KeysOrder(m, i) ==> Reaches(JObj(m), p)
    decreases JObj(m), 0, |SearchKeys| - i
  {
    if i < |SearchKeys| {
      var key := SearchKeys[i];
      KeysOrderSound(m, i + 1);
      if key in m && m[key].IsContainer() {
        SearchOrderSound(m[key]);
        FieldStep(m, key, JNull);
        UnderReaches(JObj(m), Field(key), m[key], SearchOrder(m[key]));
      }
    }
  }

  lemma {:induction false} ItemsOrderSound(xs: seq<Json>, i: nat)
    ensures forall p :: p in ItemsOrder(xs, i) ==> Reaches(JArr(xs), p)
    decreases JArr(xs), 0, |xs| - i
  {
    if i < |xs| {
      ItemsOrderSound(xs, i + 1);
      SearchOrderSound(xs[i]);
      ItemStep(xs, i, JNull);
      UnderReaches(JArr(xs), Item(i), xs[i], SearchOrder(xs[i]));
    }
  }

  lemma {:induction false} KeysOrderCovers(m: map<string, Json>, i: nat, n: nat, p: Path)
    requires i <= n < |SearchKeys|
    requires SearchKeys[n] in m && m[SearchKeys[n]].IsContainer()
    requires p in Under(Field(SearchKeys[n]), SearchOrder(m[SearchKeys[n]]))
    ensures p in KeysOrder(m, i)
    decreases n - i
  {
    if i < n { KeysOrderCovers(m, i + 1, n, p); }
  }

  lemma {:induction false} ItemsOrderCovers(xs: seq<Json>, i: nat, n: nat, p: Path)
    requires i <= n < |xs|
    requires p in Under(Item(n), SearchOrder(xs[n]))
    ensures p in ItemsOrder(xs, i)
    decreases n - i
  {
    if i < n { ItemsOrderCovers(xs, i + 1, n, p); }
  }

  /** Every list or dict reachable through search keys is in the search
      order; in particular every such html widget. */
  lemma {:induction false} SearchOrderComplete(j: Json, p: Path)
    requires Reaches(j, p) && Get(j, p).value.IsContainer()
    ensures p in SearchOrder(j)
    decreases p
  {
    if p == [] {
      assert SearchOrder(j)[0] == [];
    } else {
      var s, q := p[0], p[1..];
      assert p == [s] + q;
      assert ViaSearchKeys(q) by {
        forall n | 0 <= n < |q| && q[n].Field?
          ensures q[n].key in SearchKeys
        {
          assert q[n] == p[n + 1];
        }
      }
      match (j, s) {
        case (JObj(m), Field(k)) =>
          var c := m[k];
          assert Get(c, q) == Get(j, p);
          assert c.IsContainer() by {
            if q != [] { assert !c.IsContainer() ==> Get(c, q).None?; }
          }
          SearchOrderComplete(c, q);
          var us := Under(Field(k), SearchOrder(c));
          var n :| 0 <= n < |SearchOrder(c)| && SearchOrder(c)[n] == q;
          assert us[n] == p;
          assert SearchKeys[0] == k || SearchKeys[1] == k;
          if SearchKeys[0] == k { KeysOrderCovers(m, 0, 0, p); }
          else { KeysOrderCovers(m, 0, 1, p); }
          assert SearchOrder(j) == [[]] + KeysOrder(m, 0);
        case (JArr(xs), Item(i)) =>
          var c := xs[i];
          assert Get(c, q) == Get(j, p);
          SearchOrderComplete(c, q);
          var us := Under(Item(i), SearchOrder(c));
          var n :| 0 <= n < |SearchOrder(c)| && SearchOrder(c)[n] == q;
          assert us[n] == p;
          ItemsOrderCovers(xs, 0, i, p);
          assert SearchOrder(j) == [[]] + ItemsOrder(xs, 0);
      }
    }
  }

  // --- properties of the patcher -----------------------------------------

  /** Nothing is changed exactly when no html widget is reachable through
      `components`, `cells` and list items; the template then comes back as it was. */
  lemma NoWidgetNoChange(j: Json, html: string)
    ensures Fill(j, html).NotFound? <==> forall p :: Reaches(j, p) ==> !IsWidgetAt(j, p)
    ensures Fill(j, html).NotFound? ==> PatchedTemplate(j, html) == Some(j)
  {
    FillIsFirstWidget(j, html);
    var so := SearchOrder(j);
    SearchOrderSound(j);
    if Fill(j, html).NotFound? {
      forall p | Reaches(j, p)
        ensures !IsWidgetAt(j, p)
      {
        if IsWidgetAt(j, p) {
          SearchOrderComplete(j, p);
        }
      }
    } else {
      assert so[FirstWidgetIndex(j, so)] in so;
    }
  }

  /** The chosen widget is reached through search keys only: one that sits
      under any other key is never chosen. */
  lemma ChosenViaSearchKeys(j: Json)
    requires FirstWidget(j).Some?
    ensures Reaches(j, FirstWidget(j).value) && IsWidgetAt(j, FirstWidget(j).value)
  {
    var so := SearchOrder(j);
    SearchOrderSound(j);
    assert so[FirstWidgetIndex(j, so)] in so;
  }

  /** A template whose root is an html widget has the root patched and
      nothing below it searched. */
  lemma RootWidget(m: map<string, Json>, html: string)
    requires IsHtmlWidget(m)
    ensures FirstWidget(JObj(m)) == Some([])
    ensures Fill(JObj(m), html) == UpdateWidget(m, html)
  {
    var so := SearchOrder(JObj(m));
    assert so[0] == [] && IsWidgetAt(JObj(m), so[0]);
    FirstWidgetIndexUnique(JObj(m), so, 0);
  }

  /** The patch raises exactly when the chosen widget has a `properties`
      value that is not a dict. */
  lemma BadPropertiesExactly(j: Json, html: string)
    ensures Fill(j, html).BadProperties? <==>
      FirstWidget(j).Some? &&
      var node := Get(j, FirstWidget(j).value);
      node.Some? && node.value.JObj? &&
      "properties" in node.value.fields && !node.value.fields["properties"].JObj?
  {
    FillIsFirstWidget(j, html);
  }

  /** On a hit, the chosen widget is replaced by its updated self, every node
      outside the chosen widget's line of ancestors is unchanged, and each
      ancestor differs only below, along the path to the widget. */
  lemma OnlyChosenWidgetChanges(j: Json, html: string)
    requires Fill(j, html).Found?
    ensures FirstWidget(j).Some?
    ensures
      var p := FirstWidget(j).value;
      var t := Fill(j, html).tree;
      IsWidgetAt(j, p) && UpdateWidget(Get(j, p).value.fields, html).Found? &&
      var w := UpdateWidget(Get(j, p).value.fields, html).tree;
      t == Put(j, p, w) &&
      Get(t, p) == Some(w) &&
      (forall q :: Disjoint(p, q) ==> Get(t, q) == Get(j, q)) &&
      (forall q :: IsPrefix(q, p) ==>
         Get(j, q).Some? && Get(t, q) == Some(Put(Get(j, q).value, p[|q|..], w)))
  {
    FillIsFirstWidget(j, html);
    var p := FirstWidget(j).value;
    var m := Get(j, p).value.fields;
    var w := UpdateWidget(m, html).tree;
    PutThenGet(j, p, w);
    forall q | Disjoint(p, q)
      ensures Get(Put(j, p, w), q) == Get(j, q)
    {
      PutFrame(j, p, w, q);
    }
    forall q | IsPrefix(q, p)
      ensures Get(j, q).Some? && Get(Put(j, p, w), q) == Some(Put(Get(j, q).value, p[|q|..], w))
    {
      PutAncestor(j, p, w, q);
    }
  }

  // --- the order of the search -------------------------------------------

  /** The first html widget among `ps`, if any. */
  function FirstIn(j: Json, ps: seq<Path>): Option<Path> {
    var n := FirstWidgetIndex(j, ps);
    if n < |ps| then Some(ps[n]) else None
  }

  function Prepend(s: Step, o: Option<Path>): Option<Path> {
    match o
    case Some(q) => Some([s] + q)
    case None => None
  }

  lemma FirstInConcat(j: Json, a: seq<Path>, b: seq<Path>)
    ensures FirstIn(j, a + b) == if FirstIn(j, a).Some? then FirstIn(j, a) else FirstIn(j, b)
  {
    ExpectedInConcat(j, a, b, "");
    var na := FirstWidgetIndex(j, a);
    if na >= |a| {
      var nb := FirstWidgetIndex(j, b);
      if nb < |b| { assert (a + b)[|a| + nb] == b[nb]; }
    }
  }

  lemma FirstInUnder(j: Json, s: Step, c: Json, ps: seq<Path>)
    requires Get(j, [s]) == Some(c)
    ensures FirstIn(j, Under(s, ps)) == Prepend(s, FirstIn(c, ps))
  {
    ExpectedInUnder(j, s, c, ps, "");
  }

  /** The widget chosen inside the value at `key`, seen from the dict. */
  function ChosenUnderKey(m: map<string, Json>, key: string): Option<Path> {
    if key in m && m[key].IsContainer() then Prepend(Field(key), FirstWidget(m[key])) else None
  }

  /** One step of the loop over `SearchKeys`, seen from the dict. */
  lemma KeysOrderStep(m: map<string, Json>, i: nat)
    requires i < |SearchKeys|
    ensures FirstIn(JObj(m), KeysOrder(m, i)) ==
      var chosen := ChosenUnderKey(m, SearchKeys[i]);
      if chosen.Some? then chosen else FirstIn(JObj(m), KeysOrder(m, i + 1))
  {
    var j, key := JObj(m), SearchKeys[i];
    if key in m && m[key].IsContainer() {
      var u := Under(Field(key), SearchOrder(m[key]));
      FirstInConcat(j, u, KeysOrder(m, i + 1));
      FieldStep(m, key, JNull);
      FirstInUnder(j, Field(key), m[key], SearchOrder(m[key]));
    } else {
      assert KeysOrder(m, i) == [] + KeysOrder(m, i + 1) == KeysOrder(m, i + 1);
      assert ChosenUnderKey(m, key) == None;
    }
  }

  /** Inside a dict that is not itself a match, the chosen widget is the one
      chosen under `components`, and only when there is none the one chosen
      under `cells`. */
  lemma ComponentsBeforeCells(m: map<string, Json>)
    requires !IsHtmlWidget(m)
    ensures FirstWidget(JObj(m)) ==
      if ChosenUnderKey(m, "components").Some? then ChosenUnderKey(m, "components")
      else ChosenUnderKey(m, "cells")
  {
    var j := JObj(m);
    assert SearchOrder(j)[0] == [] && !IsWidgetAt(j, []);
    FirstInConcat(j, [[]], KeysOrder(m, 0));
    KeysOrderStep(m, 0);
    KeysOrderStep(m, 1);
    assert KeysOrder(m, 2) == [];
  }

  /** Inside a list, the chosen widget is the one chosen in the leftmost item
      that holds one. */
  lemma {:induction false} ItemsLeftToRight(xs: seq<Json>, i: nat, n: nat)
    requires i <= n < |xs|
    requires FirstWidget(xs[n]).Some?
    requires forall k :: i <= k < n ==> FirstWidget(xs[k]).None?
    ensures FirstIn(JArr(xs), ItemsOrder(xs, i)) == Prepend(Item(n), FirstWidget(xs[n]))
    decreases n - i
  {
    var j := JArr(xs);
    var u := Under(Item(i), SearchOrder(xs[i]));
    FirstInConcat(j, u, ItemsOrder(xs, i + 1));
    ItemStep(xs, i, JNull);
    FirstInUnder(j, Item(i), xs[i], SearchOrder(xs[i]));
    if i < n {
      ItemsLeftToRight(xs, i + 1, n);
    }
  }

  /** So the widget chosen in a list is the one of its first item that has one. */
  lemma ListChoosesLeftmost(xs: seq<Json>, n: nat)
    requires n < |xs|
    requires FirstWidget(xs[n]).Some?
    requires forall k :: 0 <= k < n ==> FirstWidget(xs[k]).None?
    ensures FirstWidget(JArr(xs)) == Some([Item(n)] + FirstWidget(xs[n]).value)
  {
    var j := JArr(xs);
    assert SearchOrder(j)[0] == [] && !IsWidgetAt(j, []);
    FirstInConcat(j, [[]], ItemsOrder(xs, 0));
    ItemsLeftToRight(xs, 0, n);
  }
}
