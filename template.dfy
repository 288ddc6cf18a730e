/** The template patcher of tools.py: find the first html widget of a
    template, taking `components` before `cells` inside a dict and list
    elements left to right, and set its `properties.content` to the given
    html under the language key "en".

    `Fill` follows the search as written (recursive, stopping at the first
    hit); `Expected` says independently which node is chosen (the first html
    widget of `SearchOrder`) and what becomes of the tree (`Put` of the
    updated widget at its path). `FillIsFirstWidget` proves the two equal. */
module Template {
  import opened Json

  /** What one search returns: no widget in this branch (`False` in the
      source), the updated tree (`True`, with the tree now patched), or the
      `TypeError` the source raises when the widget's `properties` is there
      but is not a dict. */
  datatype Outcome = NotFound | Found(tree: Json) | BadProperties

  /** Inside a dict only these keys are searched, in this order. */
  const SearchKeys: seq<string> := ["components", "cells"]

  /** `data.get("type") == "widget" and data.get("widgetType") == "html"`. */
  predicate IsHtmlWidget(m: map<string, Json>) {
    "type" in m && m["type"] == JStr("widget") &&
    "widgetType" in m && m["widgetType"] == JStr("html")
  }

  /** The localized text value `{"en": s}`. */
  function English(s: string): Json {
    JObj(map["en" := JStr(s)])
  }

  /** The update applied to the matched widget: create `properties` if it is
      missing, then set its `content` key. */
  function UpdateWidget(m: map<string, Json>, html: string): (r: Outcome)
    ensures !r.NotFound?
    ensures r.BadProperties? <==> "properties" in m && !m["properties"].JObj?
    ensures r.Found? ==>
      r.tree.JObj? && r.tree.fields.Keys == m.Keys + {"properties"} &&
      (forall k :: k in m && k != "properties" ==> r.tree.fields[k] == m[k]) &&
      r.tree.fields["properties"].JObj? &&
      "content" in r.tree.fields["properties"].fields &&
      r.tree.fields["properties"].fields["content"] == English(html)
    // a widget without properties gets exactly one key
    ensures r.Found? && "properties" !in m ==>
      r.tree.fields["properties"].fields.Keys == {"content"}
    // an existing properties dict keeps every other key as it was
    ensures r.Found? && "properties" in m ==>
      var old_props := m["properties"].fields;
      var new_props := r.tree.fields["properties"].fields;
      new_props.Keys == old_props.Keys + {"content"} &&
      forall k :: k in old_props && k != "content" ==> new_props[k] == old_props[k]
  {
    if "properties" !in m then
      Found(JObj(m["properties" := JObj(map["content" := English(html)])]))
    else match m["properties"]
      case JObj(props) => Found(JObj(m["properties" := JObj(props["content" := English(html)])]))
      case _ => BadProperties
  }

  /** One call of the inner search of `_fill_html_widget_in_template`. */
  function Fill(j: Json, html: string): (r: Outcome)
    ensures r.Found? ==> j.IsContainer()
    // on a dict the result is a dict; apart from `properties`, `components`
    // and `cells` its keys and their values are the old ones
    ensures r.Found? && j.JObj? ==>
      r.tree.JObj? &&
      (forall k :: k in j.fields && k != "properties" && k !in SearchKeys ==>
         k in r.tree.fields && r.tree.fields[k] == j.fields[k]) &&
      (forall k :: k in r.tree.fields && k != "properties" && k !in SearchKeys ==>
         k in j.fields)
    ensures r.Found? && j.JArr? ==> r.tree.JArr? && |r.tree.items| == |j.items|
    decreases j, 1, 0
  {
    match j
    case JObj(m) =>
      if IsHtmlWidget(m) then UpdateWidget(m, html) else FillKeys(m, 0, html)
    case JArr(xs) => FillItems(xs, 0, html)
    case _ => NotFound
  }

  /** The loop over `SearchKeys` from position `i` on, inside a dict that is
      not itself a match. */
  function FillKeys(m: map<string, Json>, i: nat, html: string): (r: Outcome)
    ensures r.Found? ==>
      r.tree.JObj? && r.tree.fields.Keys == m.Keys &&
      forall k :: k in m && k !in SearchKeys ==> r.tree.fields[k] == m[k]
    decreases JObj(m), 0, |SearchKeys| - i
  {
    if i >= |SearchKeys| then NotFound
    else
      var key := SearchKeys[i];
      if key in m && m[key].IsContainer() then
        match Fill(m[key], html)
        case Found(t) => Found(JObj(m[key := t]))
        case BadProperties => BadProperties
        case NotFound => FillKeys(m, i + 1, html)
      else FillKeys(m, i + 1, html)
  }

  /** The loop over the items of a list from position `i` on. */
  function FillItems(xs: seq<Json>, i: nat, html: string): (r: Outcome)
    ensures r.Found? ==> r.tree.JArr? && |r.tree.items| == |xs|
    ensures r.Found? ==> forall n :: 0 <= n < i && n < |xs| ==> r.tree.items[n] == xs[n]
    decreases JArr(xs), 0, |xs| - i
  {
    if i >= |xs| then NotFound
    else
      match Fill(xs[i], html)
      case Found(t) => Found(JArr(xs[i := t]))
      case BadProperties => BadProperties
      case NotFound => FillItems(xs, i + 1, html)
  }

  /** `_fill_html_widget_in_template`: the patched template, or `None` for
      the `TypeError` raised on a widget whose `properties` is not a dict. */
  function PatchedTemplate(template: Json, html: string): (r: Option<Json>)
    ensures r.None? <==> Fill(template, html).BadProperties?
    ensures FirstWidget(template).None? ==> r == Some(template)
    // on a hit, the template with its first html widget patched at its path
    ensures Expected(template, html).Found? ==> r == Some(Expected(template, html).tree)
    ensures template.JObj? && r.Some? ==> r.value.JObj?
  {
    FillIsFirstWidget(template, html);
    match Fill(template, html)
    case Found(t) => Some(t)
    case NotFound => Some(template)
    case BadProperties => None
  }

  // ---------------------------------------------------------------------
  // The independent description: search order, first match, patch at a path
  // ---------------------------------------------------------------------

  /** Every path the search reaches, in the order it reaches them, when no
      node along the way matches: a node before its children, `components`
      before `cells` (each only when it holds a list or a dict), list items
      left to right. */
  function SearchOrder(j: Json): seq<Path>
    decreases j, 1, 0
  {
    match j
    case JObj(m) => [[]] + KeysOrder(m, 0)
    case JArr(xs) => [[]] + ItemsOrder(xs, 0)
    case _ => [[]]
  }

  function KeysOrder(m: map<string, Json>, i: nat): seq<Path>
    decreases JObj(m), 0, |SearchKeys| - i
  {
    if i >= |SearchKeys| then []
    else
      var key := SearchKeys[i];
      (if key in m && m[key].IsContainer() then Under(Field(key), SearchOrder(m[key])) else [])
      + KeysOrder(m, i + 1)
  }

  function ItemsOrder(xs: seq<Json>, i: nat): seq<Path>
    decreases JArr(xs), 0, |xs| - i
  {
    if i >= |xs| then []
    else Under(Item(i), SearchOrder(xs[i])) + ItemsOrder(xs, i + 1)
  }

  predicate IsWidgetAt(j: Json, p: Path) {
    match Get(j, p)
    case Some(JObj(m)) => IsHtmlWidget(m)
    case _ => false
  }

  /** The position of the first html widget in `ps`, or `|ps|` if there is none. */
  function FirstWidgetIndex(j: Json, ps: seq<Path>): (r: nat)
    ensures r <= |ps|
    ensures r < |ps| ==> IsWidgetAt(j, ps[r])
    ensures forall n :: 0 <= n < r ==> !IsWidgetAt(j, ps[n])
  {
    if ps == [] then 0
    else if IsWidgetAt(j, ps[0]) then 0
    else 1 + FirstWidgetIndex(j, ps[1..])
  }

  /** The path of the widget the patcher chooses. */
  function FirstWidget(j: Json): Option<Path> {
    var ps := SearchOrder(j);
    var n := FirstWidgetIndex(j, ps);
    if n < |ps| then Some(ps[n]) else None
  }

  /** Update the widget at `p` and put it back in the tree. */
  function PatchAt(j: Json, p: Path, html: string): Outcome {
    match Get(j, p)
    case Some(JObj(m)) =>
      (match UpdateWidget(m, html)
       case Found(w) => Found(Put(j, p, w))
       case _ => BadProperties)
    case _ => NotFound
  }

  /** The patch of the first widget of `ps`, if any. */
  function ExpectedIn(j: Json, ps: seq<Path>, html: string): (r: Outcome)
    ensures r.NotFound? <==> FirstWidgetIndex(j, ps) == |ps|
  {
    var n := FirstWidgetIndex(j, ps);
    if n < |ps| then PatchAt(j, ps[n], html) else NotFound
  }

  /** What the patcher is meant to do to `j`. */
  function Expected(j: Json, html: string): Outcome {
    match FirstWidget(j)
    case None => NotFound
    case Some(p) => PatchAt(j, p, html)
  }

  // ---------------------------------------------------------------------
  // Lemmas
  // ---------------------------------------------------------------------

  /** The first-widget index is determined by its contract. */
  lemma FirstWidgetIndexUnique(j: Json, ps: seq<Path>, n: nat)
    requires n <= |ps|
    requires n < |ps| ==> IsWidgetAt(j, ps[n])
    requires forall k :: 0 <= k < n ==> !IsWidgetAt(j, ps[k])
    ensures FirstWidgetIndex(j, ps) == n
  {
  }

  /** A search over `a + b` finds `a`'s first widget, or failing that `b`'s. */
  lemma ExpectedInConcat(j: Json, a: seq<Path>, b: seq<Path>, html: string)
    ensures FirstWidgetIndex(j, a + b) ==
      if FirstWidgetIndex(j, a) < |a| then FirstWidgetIndex(j, a)
      else |a| + FirstWidgetIndex(j, b)
    ensures ExpectedIn(j, a + b, html) ==
      if FirstWidgetIndex(j, a) < |a| then ExpectedIn(j, a, html) else ExpectedIn(j, b, html)
  {
    var na, nb := FirstWidgetIndex(j, a), FirstWidgetIndex(j, b);
    if na < |a| {
      FirstWidgetIndexUnique(j, a + b, na);
    } else {
      assert forall k :: 0 <= k < |a| ==> (a + b)[k] == a[k];
      assert forall k :: 0 <= k < nb ==> (a + b)[|a| + k] == b[k];
      FirstWidgetIndexUnique(j, a + b, |a| + nb);
    }
  }

  /** Following step `s` to the child `c` and then `q` is following `[s] + q`. */
  lemma StepDown(j: Json, s: Step, c: Json, q: Path, v: Json)
    requires Get(j, [s]) == Some(c)
    ensures Get(j, [s] + q) == Get(c, q)
    ensures Put(j, [s] + q, v) == Put(j, [s], Put(c, q, v))
  {
    GetCons(j, s, q);
    assert ([s] + q)[0] == s && ([s] + q)[1..] == q;
    assert [s][1..] == [];
  }

  /** How a child's outcome is seen from its parent. */
  function Lift(j: Json, s: Step, o: Outcome): Outcome {
    match o
    case Found(t) => Found(Put(j, [s], t))
    case _ => o
  }

  /** Searching the paths of a child from its parent is searching the child. */
  lemma {:induction false} ExpectedInUnder(j: Json, s: Step, c: Json, ps: seq<Path>, html: string)
    requires Get(j, [s]) == Some(c)
    ensures FirstWidgetIndex(j, Under(s, ps)) == FirstWidgetIndex(c, ps)
    ensures ExpectedIn(j, Under(s, ps), html) == Lift(j, s, ExpectedIn(c, ps, html))
  {
    var us := Under(s, ps);
    forall q | true
      ensures Get(j, [s] + q) == Get(c, q)
    {
      StepDown(j, s, c, q, JNull);
    }
    assert forall k :: 0 <= k < |ps| ==> IsWidgetAt(j, us[k]) == IsWidgetAt(c, ps[k]);
    var n := FirstWidgetIndex(c, ps);
    FirstWidgetIndexUnique(j, us, n);
    if n < |ps| {
      var q := ps[n];
      match Get(c, q) {
        case Some(JObj(m)) =>
          match UpdateWidget(m, html) {
            case Found(w) => StepDown(j, s, c, q, w);
            case _ =>
          }
        case _ =>
      }
    }
  }

  lemma FieldStep(m: map<string, Json>, k: string, t: Json)
    requires k in m
    ensures Get(JObj(m), [Field(k)]) == Some(m[k])
    ensures Put(JObj(m), [Field(k)], t) == JObj(m[k := t])
  {
    assert [Field(k)][1..] == [];
  }

  lemma ItemStep(xs: seq<Json>, i: nat, t: Json)
    requires i < |xs|
    ensures Get(JArr(xs), [Item(i)]) == Some(xs[i])
    ensures Put(JArr(xs), [Item(i)], t) == JArr(xs[i := t])
  {
    assert [Item(i)][1..] == [];
  }

  /** The search as written chooses and patches the first widget in search order. */
  lemma {:induction false} FillCorrect(j: Json, html: string)
    ensures Fill(j, html) == ExpectedIn(j, SearchOrder(j), html)
    decreases j, 1, 0
  {
    var so := SearchOrder(j);
    match j
    case JObj(m) =>
      assert so[0] == [];
      if IsHtmlWidget(m) {
        assert IsWidgetAt(j, so[0]);
        FirstWidgetIndexUnique(j, so, 0);
      } else {
        ExpectedInConcat(j, [[]], KeysOrder(m, 0), html);
        KeysCorrect(m, 0, html);
      }
    case JArr(xs) =>
      ExpectedInConcat(j, [[]], ItemsOrder(xs, 0), html);
      ItemsCorrect(xs, 0, html);
    case _ =>
  }

  lemma {:induction false} KeysCorrect(m: map<string, Json>, i: nat, html: string)
    ensures FillKeys(m, i, html) == ExpectedIn(JObj(m), KeysOrder(m, i), html)
    decreases JObj(m), 0, |SearchKeys| - i
  {
    if i < |SearchKeys| {
      var key := SearchKeys[i];
      var rest := KeysOrder(m, i + 1);
      KeysCorrect(m, i + 1, html);
      if key in m && m[key].IsContainer() {
        var c := m[key];
        var under := Under(Field(key), SearchOrder(c));
        FillCorrect(c, html);
        FieldStep(m, key, JNull);
        ExpectedInUnder(JObj(m), Field(key), c, SearchOrder(c), html);
        ExpectedInConcat(JObj(m), under, rest, html);
        match Fill(c, html)
        case Found(t) => FieldStep(m, key, t);
        case _ =>
      } else {
        assert KeysOrder(m, i) == [] + rest == rest;
        assert FillKeys(m, i, html) == FillKeys(m, i + 1, html);
      }
    }
  }

  lemma {:induction false} ItemsCorrect(xs: seq<Json>, i: nat, html: string)
    ensures FillItems(xs, i, html) == ExpectedIn(JArr(xs), ItemsOrder(xs, i), html)
    decreases JArr(xs), 0, |xs| - i
  {
    if i < |xs| {
      var c := xs[i];
      var under := Under(Item(i), SearchOrder(c));
      var rest := ItemsOrder(xs, i + 1);
      ItemsCorrect(xs, i + 1, html);
      FillCorrect(c, html);
      ItemStep(xs, i, JNull);
      ExpectedInUnder(JArr(xs), Item(i), c, SearchOrder(c), html);
      ExpectedInConcat(JArr(xs), under, rest, html);
      match Fill(c, html)
      case Found(t) => ItemStep(xs, i, t);
      case _ =>
    }
  }

  /** The main theorem: the patcher does what `Expected` says. */
  lemma FillIsFirstWidget(j: Json, html: string)
    ensures Fill(j, html) == Expected(j, html)
  {
    FillCorrect(j, html);
  }
}
