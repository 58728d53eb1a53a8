/**
 * `getDetails` and `showDetails`: the request data of a request or example,
 * and the text block that shows it. `JSON.parse` and the pretty-printer `ex`
 * are parameters of the model.
 */
module Details {
  import opened Text
  import opened Postman

  /** The object `getDetails` builds. `verb` is `url.method`. */
  datatype ResourceDetails = ResourceDetails(
    params: Json, query: Json, body: Json, path: string, verb: string, headers: Json)

  /** A value returned, an `Error` returned (not thrown), or an exception thrown. */
  datatype Outcome<T> = Ok(value: T) | Fail(message: string) | Throws

  /**
   * The request `getDetails` reads: an example's own `originalRequest`, and for
   * anything else its `request` property, which only an Item has.
   */
  function RequestOf(resource: Resource): Option<HttpRequest>
  {
    if resource.IsResponse() then resource.originalRequest
    else if resource.IsItem() then resource.request
    else None
  }

  function NoRequestText(name: string): string
  {
    "not found request data on " + Quoted(name)
  }

  /** `req.body?.raw || '{}'`: an absent body, an absent raw text or an empty one all become `{}`. */
  function BodyText(req: HttpRequest): (t: string)
    ensures req.body.None? || req.body.value.raw.None? || req.body.value.raw == Some("") ==> t == "{}"
    ensures req.body.Some? && req.body.value.raw.Some? && req.body.value.raw != Some("") ==>
            t == req.body.value.raw.value
  {
    match req.body
    case None => "{}"
    case Some(b) =>
      match b.raw
      case None => "{}"
      case Some(raw) => if raw == "" then "{}" else raw
  }

  /** `getDetails(resource)`, with `JSON.parse` given as `parse` (None: it throws). */
  function GetDetails(resource: Resource, parse: string -> Option<Json>): (r: Outcome<ResourceDetails>)
    ensures r.Fail? <==> RequestOf(resource).None?
    ensures r.Fail? ==> r.message == NoRequestText(resource.name)
    ensures r.Throws? <==> RequestOf(resource).Some? && parse(BodyText(RequestOf(resource).value)).None?
    ensures r.Ok? ==>
      var req := RequestOf(resource).value;
      && r.value.verb == ToLower(req.httpMethod)
      && r.value.path == req.url.path
      && r.value.params == req.url.variables
      && r.value.query == req.url.query
      && r.value.headers == req.headers
      && parse(BodyText(req)) == Some(r.value.body)
  {
    match RequestOf(resource)
    case None => Fail(NoRequestText(resource.name))
    case Some(req) =>
      match parse(BodyText(req))
      case None => Throws
      case Some(body) =>
        Ok(ResourceDetails(req.url.variables, req.url.query, body, req.url.path, ToLower(req.httpMethod), req.headers))
  }

  /** An example never borrows its request's data: without its own snapshot it fails. */
  lemma {:induction false} ExampleUsesOnlyItsSnapshot(e: Resource, parse: string -> Option<Json>)
    requires e.IsResponse() && e.originalRequest.None?
    ensures GetDetails(e, parse) == Fail(NoRequestText(e.name))
  {
  }

  /** A successful extraction reports the method in lower case and an empty body as `{}`. */
  lemma {:induction false} DetailsNormalised(resource: Resource, parse: string -> Option<Json>)
    requires GetDetails(resource, parse).Ok?
    ensures !HasUpper(GetDetails(resource, parse).value.verb)
    ensures var req := RequestOf(resource).value;
            req.body.None? || req.body.value.raw.None? || req.body.value.raw == Some("") ==>
            parse("{}") == Some(GetDetails(resource, parse).value.body)
  {
    LowerHasNoUpper(RequestOf(resource).value.httpMethod);
  }

  // ---------------------------------------------------------------------
  // showDetails

  /** What `showDetails` is given: a resource, or details already extracted. */
  datatype Target = OfResource(resource: Resource) | OfDetails(details: ResourceDetails)

  const DefaultIgnore: seq<string> := ["url", "headers"]

  /** `Object.entries(details)`, in the order `getDetails` writes the keys. */
  function Entries(d: ResourceDetails): (es: seq<(string, Json)>)
    ensures |es| == 5
    ensures es[0] == ("params", d.params) && es[1] == ("query", d.query) && es[2] == ("body", d.body)
    ensures es[3].0 == "url" && es[3].1.JObj? && es[4] == ("headers", d.headers)
    ensures es[3].1.fields == [("path", JStr(d.path)), ("method", JStr(d.verb))]
  {
    [("params", d.params), ("query", d.query), ("body", d.body),
     ("url", JObj([("path", JStr(d.path)), ("method", JStr(d.verb))])),
     ("headers", d.headers)]
  }

  /** The entries carry every field: different details never give the same entries. */
  lemma {:induction false} EntriesKeepEverything(d: ResourceDetails, e: ResourceDetails)
    requires Entries(d) == Entries(e)
    ensures d == e
  {
  }

  /** The entries the `forEach` keeps: not ignored, and printed as more than two characters. */
  predicate Kept(entry: (string, Json), ignore: seq<string>, ex: (Json, bool) -> string)
  {
    entry.0 !in ignore && |ex(entry.1, false)| > 2
  }

  /** The kept entries, in their original order. */
  function Filtered(entries: seq<(string, Json)>, ignore: seq<string>, ex: (Json, bool) -> string)
    : (kept: seq<(string, Json)>)
    ensures |kept| <= |entries|
  {
    if |entries| == 0 then []
    else (if Kept(entries[0], ignore, ex) then [entries[0]] else []) + Filtered(entries[1..], ignore, ex)
  }

  lemma {:induction false} FilteredStep(entries: seq<(string, Json)>, i: nat, ignore: seq<string>, ex: (Json, bool) -> string)
    requires i < |entries|
    ensures Filtered(entries[i..], ignore, ex) ==
            (if Kept(entries[i], ignore, ex) then [entries[i]] else []) + Filtered(entries[i + 1..], ignore, ex)
  {
    assert entries[i..][0] == entries[i] && entries[i..][1..] == entries[i + 1..];
  }

  /** An entry survives the filter exactly when it is kept; nothing else appears. */
  lemma {:induction false} FilteredKeepsExactly(entries: seq<(string, Json)>, ignore: seq<string>, ex: (Json, bool) -> string)
    ensures forall p :: p in Filtered(entries, ignore, ex) <==> p in entries && Kept(p, ignore, ex)
    decreases entries
  {
    if |entries| > 0 {
      FilteredKeepsExactly(entries[1..], ignore, ex);
      var head := if Kept(entries[0], ignore, ex) then [entries[0]] else [];
      assert Filtered(entries, ignore, ex) == head + Filtered(entries[1..], ignore, ex);
      assert entries == [entries[0]] + entries[1..];
    }
  }

  /** The `forEach` that builds `filteredDetails`. */
  method FilterDetails(entries: seq<(string, Json)>, ignore: seq<string>, ex: (Json, bool) -> string)
    returns (filtered: seq<(string, Json)>)
    ensures filtered == Filtered(entries, ignore, ex)
    ensures forall p :: p in filtered ==> p.0 !in ignore
  {
    filtered := [];
    var i := 0;
    while i < |entries|
      invariant 0 <= i <= |entries|
      invariant filtered + Filtered(entries[i..], ignore, ex) == Filtered(entries, ignore, ex)
    {
      var (k, v) := entries[i];
      FilteredStep(entries, i, ignore, ex);
      if k !in ignore {
        var shown := ex(v, false);
        if |shown| > 2 {
          filtered := filtered + [(k, v)];
        }
      }
      i := i + 1;
    }
    assert entries[i..] == [];
    FilteredKeepsExactly(entries, ignore, ex);
  }

  /** The first line: name, method and path. */
  function Header(name: string, d: ResourceDetails): string
  {
    name + " " + d.verb + " " + d.path
  }

  /** The block `showDetails` returns for `name` and `d`. */
  function Display(name: string, d: ResourceDetails, ignore: seq<string>, ex: (Json, bool) -> string): string
  {
    var formatted := ex(JObj(Filtered(Entries(d), ignore, ex)), true);
    Header(name, d) + (if |formatted| > 2 then "\n" + formatted else "")
  }

  /**
   * The name and details `showDetails` works from: an item or a response goes
   * through `getDetails` (its failure is passed on); given details are used
   * with an empty name; a folder or collection has no `url`, so reading
   * `details.url.method` throws.
   */
  function Chosen(target: Target, parse: string -> Option<Json>): (r: Outcome<(string, ResourceDetails)>)
    ensures target.OfDetails? ==> r == Ok(("", target.details))
    ensures target.OfResource? && !(target.resource.IsItem() || target.resource.IsResponse()) ==> r.Throws?
    ensures target.OfResource? && r.Ok? ==>
            r.value.0 == target.resource.name && GetDetails(target.resource, parse) == Ok(r.value.1)
    ensures r.Fail? <==> target.OfResource? && (target.resource.IsItem() || target.resource.IsResponse()) &&
                         RequestOf(target.resource).None?
    ensures r.Fail? ==> r.message == NoRequestText(target.resource.name)
  {
    match target
    case OfDetails(d) => Ok(("", d))
    case OfResource(res) =>
      if res.IsItem() || res.IsResponse() then
        match GetDetails(res, parse)
        case Ok(d) => Ok((res.name, d))
        case Fail(m) => Fail(m)
        case Throws => Throws
      else Throws
  }

  /** `showDetails(resource, ignore)`: choose the name and details, then compose the block. */
  method ShowDetails(target: Target, ignore: seq<string>, parse: string -> Option<Json>, ex: (Json, bool) -> string)
    returns (r: Outcome<string>)
    ensures Chosen(target, parse).Fail? ==> r == Fail(Chosen(target, parse).message)
    ensures Chosen(target, parse).Throws? ==> r.Throws?
    ensures Chosen(target, parse).Ok? ==>
            var (name, d) := Chosen(target, parse).value; r == Ok(Display(name, d, ignore, ex))
  {
    var name := "";
    var details: ResourceDetails;
    if target.OfResource? && (target.resource.IsItem() || target.resource.IsResponse()) {
      var got := GetDetails(target.resource, parse);
      if got.Fail? {
        return Fail(got.message);
      }
      if got.Throws? {
        return Throws;
      }
      details := got.value;
      name := target.resource.name;
    } else if target.OfDetails? {
      details := target.details;
    } else {
      return Throws;
    }
    assert Chosen(target, parse) == Ok((name, details));
    var text := Compose(name, details, ignore, ex);
    return Ok(text);
  }

  /** The part of `showDetails` after the details are known: header, filter, pretty-print. */
  method Compose(name: string, details: ResourceDetails, ignore: seq<string>, ex: (Json, bool) -> string)
    returns (result: string)
    ensures result == Display(name, details, ignore, ex)
  {
    var urlLine := details.verb + " " + details.path;
    result := name + " " + urlLine;
    var filteredDetails := FilterDetails(Entries(details), ignore, ex);
    var formatted := ex(JObj(filteredDetails), true);
    result := result + (if |formatted| > 2 then "\n" + formatted else "");
  }

  /**
   * The block starts with the header line, is followed by the pretty-printed
   * kept entries only when those print as more than two characters, and no
   * ignored key reaches the printer.
   */
  lemma {:induction false} DisplayShape(name: string, d: ResourceDetails, ignore: seq<string>, ex: (Json, bool) -> string)
    ensures var text := Display(name, d, ignore, ex);
            var kept := Filtered(Entries(d), ignore, ex);
            var formatted := ex(JObj(kept), true);
            && |Header(name, d)| <= |text|
            && text[..|Header(name, d)|] == Header(name, d)
            && (|formatted| > 2 ==> text == Header(name, d) + "\n" + formatted)
            && (|formatted| <= 2 ==> text == Header(name, d))
            && (forall p :: p in kept ==> p.0 !in ignore)
  {
    var text := Display(name, d, ignore, ex);
    var formatted := ex(JObj(Filtered(Entries(d), ignore, ex)), true);
    assert text == Header(name, d) + (if |formatted| > 2 then "\n" + formatted else "");
    FilteredKeepsExactly(Entries(d), ignore, ex);
  }

  /** With the default ignore list, the url and headers entries are never shown. */
  lemma {:induction false} DefaultIgnoreHidesUrlAndHeaders(d: ResourceDetails, ex: (Json, bool) -> string)
    ensures forall p :: p in Filtered(Entries(d), DefaultIgnore, ex) ==> p.0 != "url" && p.0 != "headers"
  {
    FilteredKeepsExactly(Entries(d), DefaultIgnore, ex);
    forall p | p in Filtered(Entries(d), DefaultIgnore, ex) ensures p.0 != "url" && p.0 != "headers" {
      assert p.0 !in DefaultIgnore;
      assert DefaultIgnore[0] == "url" && DefaultIgnore[1] == "headers";
    }
  }
}
