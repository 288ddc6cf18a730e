/** The pure parts of the content-platform tools: the bearer-token header
    and the request that `create_content` sends. The request is described
    as a value; sending it and reading the response are not modelled. */
module Tools {
  import opened Json
  import opened Template

  /** The environment variable holding the platform credential. */
  const TokenVariable: string := "LUMAPPS_TOKEN"
  const BearerPrefix: string := "Bearer "

  /** Fixed customer and instance identifiers sent with every saved content. */
  const Customer: string := "5663677907730432"
  const Instance: string := "4259137396864449"
  const SaveUrl: string := "https://master.ms-cell-001.dev.api.lumapps.com/_ah/api/lumsites/v1/content/save"

  /** The exceptions a tool call can end with before any request is sent:
      the `ValueError` for a missing token, and the `TypeError` the patcher
      raises on a widget whose `properties` is not a dict. */
  datatype Error = TokenNotSet | PropertiesNotADict

  datatype Result<+T> = Ok(value: T) | Err(error: Error)

  type Headers = map<string, string>

  /** An outbound HTTP request as the tool would hand it to the client. */
  datatype Request = Request(verb: string, url: string, headers: Headers, body: Json)

  /** The token carried by an `Authorization` header value, if it is a bearer one. */
  function TokenOf(header: string): Option<string> {
    if |header| >= |BearerPrefix| && header[..|BearerPrefix|] == BearerPrefix
    then Some(header[|BearerPrefix|..])
    else None
  }

  /** `_get_auth_headers()`, reading the process environment `env`: an unset
      or empty token is an error (Python falsiness); otherwise exactly one
      header, which carries the token back. */
  function AuthHeaders(env: map<string, string>): (r: Result<Headers>)
    ensures r.Err? <==> TokenVariable !in env || env[TokenVariable] == ""
    ensures r.Err? ==> r.error == TokenNotSet
    ensures r.Ok? ==>
      r.value.Keys == {"Authorization"} &&
      r.value["Authorization"] == BearerPrefix + env[TokenVariable] &&
      TokenOf(r.value["Authorization"]) == Some(env[TokenVariable])
  {
    if TokenVariable !in env || env[TokenVariable] == "" then Err(TokenNotSet)
    else
      var header := BearerPrefix + env[TokenVariable];
      assert header[..|BearerPrefix|] == BearerPrefix;
      assert header[|BearerPrefix|..] == env[TokenVariable];
      Ok(map["Authorization" := header])
  }

  /** Python's `d.get(key)`, with `None` written as JSON null. */
  function GetKey(j: Json, key: string): Json {
    if j.JObj? && key in j.fields then j.fields[key] else JNull
  }

  /** The body of the save request, built from the already patched template. */
  function SaveBody(patched: Json, contentTypeId: string, title: string, slug: string): (body: Json)
    ensures body.JObj?
    ensures body.fields.Keys == {"type", "customer", "instance", "template", "customContentType",
                                 "feedKeys", "title", "slug", "status"}
    ensures body.fields["type"] == JStr("custom") && body.fields["status"] == JStr("DRAFT")
    ensures body.fields["customer"] == JStr(Customer) && body.fields["instance"] == JStr(Instance)
    ensures body.fields["title"] == English(title) && body.fields["slug"] == English(slug)
    ensures body.fields["customContentType"] == JStr(contentTypeId)
    ensures body.fields["template"] == patched
    ensures body.fields["feedKeys"] == GetKey(patched, "feedKeys")
  {
    JObj(map[
      "type" := JStr("custom"),
      "customer" := JStr(Customer),
      "instance" := JStr(Instance),
      "template" := patched,
      "customContentType" := JStr(contentTypeId),
      "feedKeys" := GetKey(patched, "feedKeys"),
      "title" := English(title),
      "slug" := English(slug),
      "status" := JStr("DRAFT")
    ])
  }

  /** `create_content`, up to the moment the request is sent: the token is
      checked first, then the template is patched, then the body is built. */
  function CreateContent(env: map<string, string>, template: map<string, Json>,
                         contentTypeId: string, title: string, slug: string,
                         htmlText: string): (r: Result<Request>)
    // an unusable token stops the call before anything else happens
    ensures AuthHeaders(env).Err? ==> r == Err(TokenNotSet)
    ensures AuthHeaders(env).Ok? ==>
      (r.Err? <==> Fill(JObj(template), htmlText).BadProperties?) &&
      (r.Err? ==> r.error == PropertiesNotADict)
    ensures r.Ok? ==>
      r.value.verb == "POST" && r.value.url == SaveUrl &&
      r.value.headers == AuthHeaders(env).value
    ensures r.Ok? ==>
      var body := r.value.body;
      body.JObj? &&
      body.fields.Keys == {"type", "customer", "instance", "template", "customContentType",
                           "feedKeys", "title", "slug", "status"} &&
      body.fields["type"] == JStr("custom") && body.fields["status"] == JStr("DRAFT") &&
      body.fields["customer"] == JStr(Customer) && body.fields["instance"] == JStr(Instance) &&
      body.fields["title"] == English(title) && body.fields["slug"] == English(slug) &&
      body.fields["customContentType"] == JStr(contentTypeId) &&
      Some(body.fields["template"]) == PatchedTemplate(JObj(template), htmlText) &&
      body.fields["template"].JObj?
    // `feedKeys` is read from the patched template, and is the original's
    ensures r.Ok? ==>
      r.value.body.fields["feedKeys"] == if "feedKeys" in template then template["feedKeys"] else JNull
  {
    match AuthHeaders(env)
    case Err(e) => Err(e)
    case Ok(headers) =>
      match PatchedTemplate(JObj(template), htmlText)
      case None => Err(PropertiesNotADict)
      case Some(patched) =>
        assert "feedKeys" !in SearchKeys;
        Ok(Request("POST", SaveUrl, headers, SaveBody(patched, contentTypeId, title, slug)))
  }
}
