/** `_fill_html_widget_in_template` and its inner `_find_and_update` as the
    source runs them: loops over the search keys and the list items that
    return at the first hit. The tree is a value: the work the source does in
    place on the matched dict is returned as the rebuilt tree. */
module Patcher {
  import opened Json
  import opened Template

  /** `_find_and_update(data)`. */
  method FindAndUpdate(data: Json, html: string) returns (r: Outcome)
    ensures r == Fill(data, html)
    ensures r == Expected(data, html)
    decreases data
  {
    FillIsFirstWidget(data, html);
    match data {
      case JObj(m) =>
        if IsHtmlWidget(m) {
          // create `properties` if missing, then set its `content` key
          var props := if "properties" in m then m["properties"] else JObj(map[]);
          if !props.JObj? {
            r := BadProperties;
            return;
          }
          r := Found(JObj(m["properties" := JObj(props.fields["content" := English(html)])]));
          return;
        }
        var i := 0;
        while i < |SearchKeys|
          invariant 0 <= i <= |SearchKeys|
          invariant FillKeys(m, i, html) == FillKeys(m, 0, html)
        {
          var key := SearchKeys[i];
          if key in m && m[key].IsContainer() {
            var sub := FindAndUpdate(m[key], html);
            if sub.Found? {
              r := Found(JObj(m[key := sub.tree]));
              return;
            } else if sub.BadProperties? {
              r := BadProperties;
              return;
            }
          }
          i := i + 1;
        }
        r := NotFound;
      case JArr(xs) =>
        var i := 0;
        while i < |xs|
          invariant 0 <= i <= |xs|
          invariant FillItems(xs, i, html) == FillItems(xs, 0, html)
        {
          var sub := FindAndUpdate(xs[i], html);
          if sub.Found? {
            r := Found(JArr(xs[i := sub.tree]));
            return;
          } else if sub.BadProperties? {
            r := BadProperties;
            return;
          }
          i := i + 1;
        }
        r := NotFound;
      case _ =>
        r := NotFound;
    }
  }

  /** `_fill_html_widget_in_template(template, html_string)`: run the search
      and hand back the template, patched if a widget was found; `None` when
      the search raised. */
  method FillHtmlWidgetInTemplate(template: Json, html: string) returns (r: Option<Json>)
    ensures r == PatchedTemplate(template, html)
  {
    var outcome := FindAndUpdate(template, html);
    match outcome {
      case Found(t) => r := Some(t);
      case NotFound => r := Some(template);
      case BadProperties => r := None;
    }
  }
}
