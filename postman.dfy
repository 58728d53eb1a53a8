/**
 * The postman-collection object model as the utilities see it: a tree of
 * collections, folders (ItemGroup), requests (Item) and examples (Response),
 * plus the request data that detail extraction reads.
 */
module Postman {

  datatype Option<T> = None | Some(value: T)

  /** Structured data, the result of `JSON.parse` and of `toObject()`. */
  datatype Json =
    | JNull
    | JBool(b: bool)
    | JNum(n: int)
    | JStr(s: string)
    | JArr(elems: seq<Json>)
    | JObj(fields: seq<(string, Json)>)

  /** A request body; only its `raw` text is read. */
  datatype Body = Body(raw: Option<string>)

  /**
   * A request URL, with the SDK's answers precomputed: `path` is
   * `getPath({unresolved: true})`, `variables` and `query` are the
   * `toObject()` views of the path variables and query parameters.
   */
  datatype Url = Url(path: string, variables: Json, query: Json)

  /** An `sdk.Request`: method, URL, headers (as `toObject()`) and optional body. */
  datatype HttpRequest = HttpRequest(httpMethod: string, url: Url, headers: Json, body: Option<Body>)

  /**
   * A node of the collection tree. Each variant is one outcome of the runtime
   * class checks; `Unknown` is a value none of them recognises.
   * A Collection is an ItemGroup in the SDK, so it carries `items` too.
   */
  datatype Resource =
    | Collection(name: string, items: seq<Resource>)
    | Folder(name: string, items: seq<Resource>)
    | Request(name: string, request: Option<HttpRequest>, responses: seq<Resource>)
    | Example(name: string, originalRequest: Option<HttpRequest>)
    | Unknown(name: string)
  {
    /** `instanceof psdk.ItemGroup` / `ItemGroup.isItemGroup`: collections and folders. */
    predicate IsItemGroup() { Collection? || Folder? }

    /** `instanceof psdk.Item` / `Item.isItem`. */
    predicate IsItem() { Request? }

    /** `instanceof psdk.Response` / `Response.isResponse`. */
    predicate IsResponse() { Example? }

    /** `Collection.isCollection`. */
    predicate IsCollection() { Collection? }

    /** Recognised by one of the three class checks of the resolver. */
    predicate Known() { IsItemGroup() || IsItem() || IsResponse() }
  }

  /**
   * The children a traversal descends into: an ItemGroup's items, an Item's
   * responses, and nothing for anything else.
   */
  function Children(r: Resource): seq<Resource>
  {
    if r.IsItemGroup() then r.items
    else if r.IsItem() then r.responses
    else []
  }

  /** The number of nodes in the subtree of `r`, following `Children`. */
  function TreeSize(r: Resource): nat
    decreases r
  {
    1 + (if r.IsItemGroup() then NodeCount(r.items)
         else if r.IsItem() then NodeCount(r.responses)
         else 0)
  }

  /** The number of nodes in a forest. */
  function NodeCount(items: seq<Resource>): nat
    decreases items
  {
    if |items| == 0 then 0 else TreeSize(items[0]) + NodeCount(items[1..])
  }

  lemma TreeSizeChildren(r: Resource)
    ensures TreeSize(r) == 1 + NodeCount(Children(r))
  {
  }

  /** One tree of a forest is no larger than the forest. */
  lemma {:induction false} TreeBelowForest(items: seq<Resource>, i: nat)
    requires i < |items|
    ensures TreeSize(items[i]) <= NodeCount(items)
    decreases i
  {
    if i > 0 {
      TreeBelowForest(items[1..], i - 1);
    }
  }
}
