# Template patcher and content-creation request of the content agent

The agent creates content items on a content-management platform. Its tools
module holds the only local logic: a routine that takes a page template (a
JSON tree of dicts, lists and scalars) and writes the given HTML into the
first html widget it finds, plus the bearer-token header rule and the body
of the "save content" request.

This project models that logic in Dafny and proves what it does:

- `json.dfy` (module `Json`): the JSON tree, paths into it (`Get`), and
  replacement at a path (`Put`), with frame lemmas for `Put`.
- `template.dfy` (module `Template`): the search as the source writes it
  (`Fill`, `FillKeys`, `FillItems`, `UpdateWidget`). The predicate
  `IsHtmlWidget` is the match test of tools.py:119: `type` is the string
  "widget" and `widgetType` is the string "html". Beside it there is an
  independent description of which node is chosen and what becomes of the
  tree: `SearchOrder`, `FirstWidget` and `Expected`. The theorem
  `FillIsFirstWidget` proves the two equal.
- `template_facts.dfy` (module `TemplateFacts`): the consequences. These
  say which widget is chosen, that it is the only node changed and how it
  changes, and when nothing changes.
- `patcher.dfy` (module `Patcher`): `_find_and_update` and
  `_fill_html_widget_in_template` as methods. They keep the source's loops
  and early returns, and are proved to compute `Fill` and `Expected`.
- `tools.dfy` (module `Tools`): the auth-header rule and the request that
  `create_content` sends.

The source mutates the matched dict in place and returns the same object.
The model treats the tree as a value instead: a search returns either
`NotFound`, `Found(tree)` with the rebuilt tree, or `BadProperties`.
`BadProperties` stands for the `TypeError` that the assignment
`data["properties"]["content"] = ...` raises when the widget's `properties`
exists but is not a dict (a list, a string, null, a number). The docstring
(tools.py:102-111) does not mention this case. The model follows
the code: the patch fails, and so does `create_content`.

The process environment is a parameter `env` of `AuthHeaders` and
`CreateContent`. The HTTP call itself is not modelled. `CreateContent`
returns the request that would be sent, or the exception raised before
sending.

## Model

| member | source | states |
|---|---|---|
| `Template.UpdateWidget` | tools.py:119-123 | The matched widget fails exactly when `properties` is present and not a dict. Otherwise it keeps every other key. A missing `properties` is created holding only `content`. An existing `properties` keeps every other key. `content` becomes `{"en": html}`, overwriting any old value. |
| `Template.Fill` | tools.py:117-137 | Only a dict or a list can be patched. On a dict the result is a dict whose keys other than `properties`, `components` and `cells`, and their values, are unchanged. On a list the length is unchanged. |
| `Template.FillKeys` | tools.py:126-129 | A hit under a search key gives back the same dict: same key set, and every key other than `components` and `cells` unchanged. |
| `Template.FillItems` | tools.py:131-135 | A hit in a list keeps its length and the items before the position searched from. |
| `Template.PatchedTemplate` | tools.py:101-140 | The patch fails exactly when the search raised. With no html widget in search order, the template is returned unchanged. On a hit, the result is `Expected`'s tree: the template with its first html widget patched at its path. A dict template stays a dict. |
| `Template.FirstWidgetIndex` | tools.py:128-135 | Gives the position of the first html widget in a sequence of paths: a widget is at that position and none before it, or there is none at all. |
| `Template.ExpectedInConcat` | tools.py:126-135 | Searching `a + b` finds `a`'s first widget, or failing that `b`'s. This is the stop-at-first-hit rule. |
| `Template.ExpectedInUnder` | tools.py:127-128 | Searching a child's paths from its parent chooses the same widget as searching the child, and the patched child is put back in its place. |
| `Template.FillCorrect` | tools.py:112-137 | The recursive search equals the patch of the first html widget in `SearchOrder` (pre-order; `components` before `cells`; list items left to right). |
| `Template.KeysCorrect` | tools.py:125-129 | The loop over `components`, `cells` equals the patch of the first widget under those keys. |
| `Template.ItemsCorrect` | tools.py:131-135 | The loop over list items equals the patch of the first widget among the items. |
| `Template.FillIsFirstWidget` | tools.py:112-140 | The search as written equals `Expected`: patch the first html widget in search order at its path, or report not found. |
| `TemplateFacts.SearchOrderSound` | tools.py:126-135 | Every path in the search order leads to an existing node. Its only dict steps are `components` and `cells`. |
| `TemplateFacts.SearchOrderComplete` | tools.py:126-135 | Every list or dict reachable through `components`, `cells` and list items (nested lists included) is in the search order. |
| `TemplateFacts.NoWidgetNoChange` | tools.py:137-140 | The search reports not found exactly when no html widget is reachable through `components`, `cells` and list items. In that case the returned template equals the input. |
| `TemplateFacts.ChosenViaSearchKeys` | tools.py:126-127 | The chosen node is an html widget reached only through `components`, `cells` and list indices. A widget under any other key is never chosen. |
| `TemplateFacts.RootWidget` | tools.py:119-123 | A root that is an html widget is the chosen node (path `[]`) and is the only node updated. Its children are not searched. |
| `TemplateFacts.BadPropertiesExactly` | tools.py:120-122 | The patch raises exactly when the chosen widget's `properties` is present and not a dict. |
| `TemplateFacts.OnlyChosenWidgetChanges` | tools.py:112-140 | On a hit, the result is the input with only the chosen widget replaced by its updated self. Every node in a disjoint subtree is unchanged. Each ancestor differs only along the path to the widget. |
| `TemplateFacts.KeysOrderStep` | tools.py:126-129 | One round of the key loop: the widget chosen under this key if there is one, otherwise the choice of the later keys. |
| `TemplateFacts.ComponentsBeforeCells` | tools.py:125-129 | In a dict that does not match itself, the widget chosen under `components` wins. Only when there is none is the one under `cells` chosen. |
| `TemplateFacts.ItemsLeftToRight` | tools.py:133-135 | Searching items from position `i` chooses the widget of the first item from `i` on that has one. |
| `TemplateFacts.ListChoosesLeftmost` | tools.py:131-135 | In a list, the widget chosen is the one chosen in the leftmost item that holds one. |
| `Patcher.FindAndUpdate` | tools.py:112-137 | The loop-and-early-return search computes the same as `Fill`, and therefore what `Expected` specifies. |
| `Patcher.FillHtmlWidgetInTemplate` | tools.py:101-140 | Runs the search and returns the template, patched if a widget was found; the `TypeError` case is an error. |
| `Tools.AuthHeaders` | tools.py:8-15 | Fails exactly when the token is unset or empty. Otherwise it returns exactly one header, `Authorization: "Bearer " + token`, from which `TokenOf` recovers the token. |
| `Tools.SaveBody` | tools.py:84-94 | Lists the body's fields as the dict literal builds them: exactly the nine keys, the fixed values, `title` and `slug` as `{"en": ...}`, the patched template, and `feedKeys` read from that template (null when absent). Its meaning for the original template is stated by `Tools.CreateContent`. |
| `Tools.CreateContent` | tools.py:82-96 | The token check runs first: a bad token gives that error and no request. Next, a patch failure gives the `TypeError`. Otherwise the result is a POST to the save URL with the auth header. The body holds the patched template, `type` "custom", `status` "DRAFT", the fixed customer and instance, the content type id, and `title` and `slug` as `{"en": ...}`. `feedKeys` is the original template's `feedKeys`, or null if it has none. |

## Left out

- HTTP transport (`_make_http_request`, the httpx client, `raise_for_status`) and the remote responses: network I/O whose results are opaque. `CreateContent` stops at the request value it would send.
- The tools `get_content_types`, `get_content_type_templates` and `get_template_details`: each fetches a URL built from its argument (if any), with the auth header, and returns the remote response.
- In-place mutation and object identity: the tree is a value. The source returns the very object it was given, now patched. The model returns the rebuilt tree, which equals the patched object whenever no dict or list is shared between two places in the tree (JSON parsed from the wire never shares).
- Python's recursion limit on very deep templates is not modelled.
- Dict key order is not modelled (a map): the search only looks up fixed keys, so order never affects it.
- JSON numbers are integers; the patcher never inspects them, and floats are not modelled.
- The slug rule (letters and dashes, unique) appears only in a field description. Nothing checks it locally, so it is not a precondition.
- `print` logging and `json.dumps` of the body: output only.
- The conversation loop and the web server (server.py, graph.py, static/script.js): framework wiring and browser UI. The one-line routing predicate `should_call_tools` in graph.py is not part of this model.
