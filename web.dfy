/**
 * What the crawler receives from the outside world, abstracted.
 *
 * The HTTP session is a `Transport`: for each request and each retry index it
 * either answers or raises. Parsed markup is never parsed here: a `Document`
 * holds the results of exactly the lookups the crawler makes on a page
 * (each `find(...)` is an `Option<Tag>`), and a `Tag` keeps only what the
 * crawler reads from a tag (its attributes, its class tokens, its children).
 */
module Web {
  import opened Wrappers

  /** The exceptions that the crawler raises or catches, by their Python names. */
  datatype Exception =
    | TransportError(info: string)   // raised by the HTTP session: connection failure, timeout, ...
    | NoActiveException              // the RuntimeError of a bare `raise` with no exception being handled
    | KeyError(key: string)
    | IndexError
    | TypeError
    | AttributeError(name: string)
    | ValueError(literal: string)    // `int()` of text that is no integer literal

  /** JSON scalars as Python's `json` module decodes them. */
  datatype JsonValue = JNull | JBool(b: bool) | JInt(i: int) | JFloat(x: real) | JStr(s: string)

  /** Form fields of a POST request, as the dictionary the crawler builds. */
  type Form = map<string, JsonValue>

  /** A markup tag: its attributes, its `class` tokens (absent: no class attribute) and its children. */
  datatype Tag = Tag(attrs: map<string, string>, classes: Option<seq<string>>, contents: seq<Node>)

  /** A child of a tag: a text node or a nested tag. */
  datatype Node = Text(text: string) | Element(tag: Tag)

  /** The lookups made inside `div.zm-profile-header`: name, agree, thanks and gender spans. */
  datatype Header = Header(name: Option<Tag>, agree: Option<Tag>, thanks: Option<Tag>, gender: Option<Tag>)

  /**
   * A fetched page: `input[name=_xsrf]`, the profile header, the large avatar
   * image, and the `span` found for each class string that has one.
   */
  datatype Document = Document(
    xsrfInput: Option<Tag>,
    header: Option<Header>,
    avatar: Option<Tag>,
    spans: map<string, Tag>)

  /** The markup of one listing page: the `zm-person-item` divs and the avatar links, in page order. */
  datatype Listing = Listing(persons: seq<Tag>, avatars: seq<Tag>)

  /**
   * A POST response, through the two reads the crawler makes of its JSON body:
   * `json()["r"]` and the markup of `json()["msg"][1]`; each is a value or the
   * exception that the read raises.
   */
  datatype Response = Response(r: Result<JsonValue, Exception>, listing: Result<Listing, Exception>)

  /** What one transport attempt gives: an answer, or a raised exception. */
  datatype Attempt<R> = Responded(value: R) | Raised(error: Exception)

  /** The HTTP session: the outcome of the k-th attempt of a GET or POST to a URL. */
  datatype Transport = Transport(
    get: (string, nat) -> Attempt<Document>,
    post: (string, Form, nat) -> Attempt<Response>)

  /** `tag[key]` for an attribute other than `class`. */
  function Attr(t: Tag, key: string): (r: Result<string, Exception>)
    ensures r.Success? <==> key in t.attrs
    ensures r.Success? ==> r.value == t.attrs[key]
    ensures r.Failure? ==> r.error == KeyError(key)
  {
    if key in t.attrs then Success(t.attrs[key]) else Failure(KeyError(key))
  }
}
