/**
  The parsed `modrinth.index.json`, as far as the script looks at it, and the
  Python truthiness rules it applies to the values it reads.
*/
module Manifest {
  import opened Base

  /** A key of a JSON object: missing, present with `null`, or present with a value. */
  datatype Field<T> = Absent | Null | Present(value: T)

  /** `entry.get('downloads')`: missing or `null`, a single URL string, or a list of URLs. */
  datatype Downloads = Missing | Url(url: string) | UrlList(urls: seq<string>)

  /**
    One element of `files`. `server` is `env.server`, `None` when `env` is
    missing, `null` or empty, or when it has no `server` key or a `null` one.
    `None` stands for a missing or `null` key in the other fields.
  */
  datatype Entry = Entry(
    path: Option<string>,
    downloads: Downloads,
    server: Option<string>,
    hashes: Option<map<string, string>>,
    fileSize: Option<int>)

  /**
    What `json.loads` made of the manifest: not decodable as UTF-8 JSON, a
    JSON value other than an object (with its Python truthiness), or an object
    with its `name` and `files` keys and whether it has any other key.
  */
  datatype Document =
    | Undecodable
    | NotAnObject(truthy: bool)
    | Object(name: Field<string>, files: Field<seq<Entry>>, otherKeys: bool)

  /** Python truthiness of the decoded manifest: a dict is truthy iff it has a key. */
  predicate Truthy(doc: Document)
    ensures doc.Object? ==> (!Truthy(doc) <==> doc == Object(Absent, Absent, false))
    ensures doc.Object? && !doc.files.Absent? ==> Truthy(doc)
    ensures doc.Undecodable? ==> !Truthy(doc)
  {
    match doc
    case Undecodable => false
    case NotAnObject(t) => t
    case Object(name, files, other) => other || !name.Absent? || !files.Absent?
  }

  /** The manifest is an object whose `name` key holds a non-empty string. */
  predicate HasPackName(doc: Document)
    ensures HasPackName(doc) ==> doc.Object? && Truthy(doc)
    ensures HasPackName(doc) <==> doc.Object? && doc.name != Present("") && doc.name.Present?
  {
    doc.Object? && doc.name.Present? && doc.name.value != ""
  }

  /** `pack_data.get('files', [])` on an object, with a `null` read as the empty list (it is falsy either way). */
  function FileList(doc: Document): seq<Entry>
    requires doc.Object?
  {
    match doc.files
    case Present(list) => list
    case _ => []
  }

  /** `entry.get('downloads') or []`, then a string becomes a one-element list. */
  function DownloadList(d: Downloads): seq<string> {
    match d
    case Missing => []
    case Url(u) => if u == "" then [] else [u]
    case UrlList(list) => list
  }

  /** The normalised download list is empty iff the field is missing, `null`, an empty string or an empty list. */
  lemma DownloadListEmpty(d: Downloads)
    ensures DownloadList(d) == [] <==> d == Missing || d == Url("") || d == UrlList([])
  {
  }

  /** `env.server`, with a missing value read as `unknown`. */
  function ServerEnv(e: Entry): string {
    match e.server
    case None => "unknown"
    case Some(s) => s
  }

  /** The server filter keeps `required`, `optional` and `unknown`. */
  predicate KeepOnServer(e: Entry) {
    var env := ServerEnv(e);
    env == "required" || env == "optional" || env == "unknown"
  }

  /** An entry without `env.server` is kept; an entry marked `unsupported`, or with any other value, is dropped. */
  lemma KeepOnServerIff(e: Entry)
    ensures KeepOnServer(e) <==> e.server.None? || e.server.value in {"required", "optional", "unknown"}
  {
  }

  /** `entry.get('fileSize') or None`: a size of 0 is no hint. */
  function SizeHint(e: Entry): (size: Option<int>)
    ensures size.Some? ==> size.value != 0 && e.fileSize == size
    ensures size.None? ==> e.fileSize.None? || e.fileSize == Some(0)
  {
    if e.fileSize == Some(0) then None else e.fileSize
  }

  /** An entry is scheduled iff its path is truthy and its normalised download list is not empty. */
  predicate Dispatchable(e: Entry) {
    e.path.Some? && e.path.value != "" && DownloadList(e.downloads) != []
  }
}
