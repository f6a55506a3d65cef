/** `extractTextFromPDF` (server/src/services/ai.services.ts:9-45): decode the value the
    key-value store holds for an uploaded file, open it as a PDF and collect the text of
    its pages. The store read and the PDF library are inputs: the outcome of the store read
    is a parameter, and the library is a function from bytes to the pages' text items. */
module PdfText {
  import opened Wrappers
  import opened Text

  newtype byte = x: int | 0 <= x < 256

  /** What the store can return for a key, as far as the decoding distinguishes it.
      `StoredObject` is any other object, arrays included: `typeTag` is its `type`
      property when that is a string, `data` its `data` property when that is an array. */
  datatype StoredValue =
    | Absent
    | StoredString(s: string)
    | StoredNumber(n: int)
    | StoredBool(b: bool)
    | NodeBuffer(bytes: seq<byte>)
    | StoredObject(typeTag: Option<string>, data: Option<seq<int>>)

  /** JavaScript truthiness of a stored value. */
  predicate Truthy(v: StoredValue)
  {
    match v
    case Absent => false
    case StoredString(s) => s != ""
    case StoredNumber(n) => n != 0
    case StoredBool(b) => b
    case _ => true
  }

  /** Why extraction failed. `StoreFailure` and `PdfFailure` carry what `JSON.stringify`
      makes of the exception thrown by the store read or by the PDF library. */
  datatype ExtractionFailure =
    | StoreFailure(detail: string)
    | FileNotFound
    | InvalidFileData
    | PdfFailure(detail: string)

  const FailurePrefix: string := "Failed to extract text from PDF. Error: "

  /** The single error every failure is rethrown as. The two errors the function throws
      itself are plain `Error`s, whose own properties are not enumerable, so
      `JSON.stringify` shows them as `{}`. */
  function FailureMessage(f: ExtractionFailure): (m: string)
    ensures FailurePrefix <= m
  {
    match f
    case StoreFailure(detail) => FailurePrefix + detail
    case FileNotFound => FailurePrefix + "{}"
    case InvalidFileData => FailurePrefix + "{}"
    case PdfFailure(detail) => FailurePrefix + detail
  }

  /** `new Uint8Array(numbers)`: each number is taken modulo 256. */
  function ToUint8(n: int): byte
  {
    (n % 256) as byte
  }

  /** The bytes handed to the PDF library. */
  function DecodeStored(v: StoredValue): (r: Result<seq<byte>, ExtractionFailure>)
  {
    if !Truthy(v) then Failure(FileNotFound)
    else match v
      case NodeBuffer(bytes) => Success(bytes)
      case StoredObject(Some("Buffer"), Some(data)) =>
        Success(seq(|data|, i requires 0 <= i < |data| => ToUint8(data[i])))
      case _ => Failure(InvalidFileData)
  }

  /** The bytes handed to the PDF library, given the outcome of the store read: a read
      that throws is caught like every later failure. */
  function Decoded(read: Result<StoredValue, string>): (r: Result<seq<byte>, ExtractionFailure>)
    ensures read.Failure? ==> r == Failure(StoreFailure(read.error))
    ensures read.Success? ==> r == DecodeStored(read.value)
  {
    if read.Failure? then Failure(StoreFailure(read.error)) else DecodeStored(read.value)
  }

  /** A page's text: its items joined by single spaces, then a newline. */
  function PageText(items: seq<string>): string
  {
    Join(items, " ") + "\n"
  }

  /** The text of the given pages, in order. */
  function PagesText(pages: seq<seq<string>>): string
  {
    if pages == [] then "" else PagesText(pages[..|pages| - 1]) + PageText(pages[|pages| - 1])
  }

  /** A loaded document: for each page, its text items, or the failure reading it. */
  type Document = seq<Result<seq<string>, string>>

  predicate AllRead(doc: Document)
  {
    forall k | 0 <= k < |doc| :: doc[k].Success?
  }

  function Contents(doc: Document): (pages: seq<seq<string>>)
    requires AllRead(doc)
    ensures |pages| == |doc|
  {
    seq(|doc|, k requires 0 <= k < |doc| => doc[k].value)
  }

  /** The reading failure of the first page that cannot be read. */
  function FirstUnread(doc: Document): (detail: string)
    requires !AllRead(doc)
  {
    if doc[0].Failure? then doc[0].error else FirstUnread(doc[1..])
  }

  lemma {:induction false} FirstUnreadAt(doc: Document, i: nat)
    requires i < |doc| && AllRead(doc[..i]) && doc[i].Failure?
    ensures !AllRead(doc) && FirstUnread(doc) == doc[i].error
  {
    assert doc[..i + 1][i] == doc[i];
    if i > 0 {
      assert doc[0] == doc[..i][0];
      assert doc[1..][..i - 1] == doc[..i][1..];
      FirstUnreadAt(doc[1..], i - 1);
    }
  }

  /** Decode the stored value, open it, and append each page's text in page order.
      Any failure ends the extraction with the single wrapped error, and no text. */
  method ExtractTextFromPdf(read: Result<StoredValue, string>, load: seq<byte> -> Result<Document, string>)
    returns (r: Result<string, string>)
    ensures read.Failure? ==> r == Failure(FailureMessage(StoreFailure(read.error)))
    ensures Decoded(read).Failure? ==> r == Failure(FailureMessage(Decoded(read).error))
    ensures Decoded(read).Success? && load(Decoded(read).value).Failure? ==>
      r == Failure(FailureMessage(PdfFailure(load(Decoded(read).value).error)))
    ensures r.Success? <==>
      (Decoded(read).Success? && load(Decoded(read).value).Success?
       && AllRead(load(Decoded(read).value).value))
    ensures r.Success? ==> r.value == PagesText(Contents(load(Decoded(read).value).value))
    ensures (Decoded(read).Success? && load(Decoded(read).value).Success?
             && !AllRead(load(Decoded(read).value).value)) ==>
      r == Failure(FailureMessage(PdfFailure(FirstUnread(load(Decoded(read).value).value))))
    ensures r.Failure? ==> FailurePrefix <= r.error
  {
    if read.Failure? {
      return Failure(FailureMessage(StoreFailure(read.error)));
    }
    var bytes := DecodeStored(read.value);
    if bytes.Failure? {
      return Failure(FailureMessage(bytes.error));
    }
    var loaded := load(bytes.value);
    if loaded.Failure? {
      return Failure(FailureMessage(PdfFailure(loaded.error)));
    }
    var doc := loaded.value;
    var text := "";
    var i := 0;
    while i < |doc|
      invariant 0 <= i <= |doc|
      invariant AllRead(doc[..i])
      invariant text == PagesText(Contents(doc[..i]))
    {
      var page := doc[i];
      if page.Failure? {
        FirstUnreadAt(doc, i);
        return Failure(FailureMessage(PdfFailure(page.error)));
      }
      assert Contents(doc[..i + 1]) == Contents(doc[..i]) + [page.value];
      text := text + PageText(page.value);
      i := i + 1;
    }
    assert doc[..i] == doc;
    return Success(text);
  }

  // ---------------------------------------------------------------------------------
  // What the decoding and the page loop promise

  /** Decoding succeeds exactly for a Node buffer and for a serialised buffer
      `{type: "Buffer", data: [...]}`; a falsy value is reported as a missing file. */
  lemma DecodeStoredCases(v: StoredValue)
    ensures DecodeStored(v).Success? <==>
      v.NodeBuffer? || (v.StoredObject? && v.typeTag == Some("Buffer") && v.data.Some?)
    ensures !Truthy(v) <==> DecodeStored(v) == Failure(FileNotFound)
    ensures v.NodeBuffer? ==> DecodeStored(v) == Success(v.bytes)
  {
  }

  /** A serialised buffer decodes to as many bytes as it has numbers, each the number
      modulo 256; numbers that already are bytes come back unchanged. */
  lemma SerialisedBufferBytes(data: seq<int>)
    ensures DecodeStored(StoredObject(Some("Buffer"), Some(data))).Success?
    ensures var bytes := DecodeStored(StoredObject(Some("Buffer"), Some(data))).value;
      |bytes| == |data| &&
      (forall i | 0 <= i < |data| :: bytes[i] as int == data[i] % 256) &&
      (forall i | 0 <= i < |data| && 0 <= data[i] < 256 :: bytes[i] as int == data[i])
  {
  }

  /** Pages are appended in order: the text of two runs of pages is the text of the
      first followed by the text of the second. */
  lemma {:induction false} PagesTextAppend(a: seq<seq<string>>, b: seq<seq<string>>)
    ensures PagesText(a + b) == PagesText(a) + PagesText(b)
    decreases |b|
  {
    if b == [] {
      assert a + b == a;
    } else {
      var c := b[..|b| - 1];
      assert (a + b)[..|a + b| - 1] == a + c;
      assert (a + b)[|a + b| - 1] == b[|b| - 1];
      PagesTextAppend(a, c);
    }
  }

  /** The first page's text comes first. */
  lemma PagesTextFirst(p: seq<string>, rest: seq<seq<string>>)
    ensures PagesText([p] + rest) == PageText(p) + PagesText(rest)
  {
    PagesTextAppend([p], rest);
    assert PagesText([p]) == PagesText([]) + PageText(p);
  }

  function NewlineCount(s: string): nat
  {
    multiset(s)['\n']
  }

  lemma {:induction false} JoinNewlines(items: seq<string>, sep: string)
    requires forall k | 0 <= k < |items| :: '\n' !in items[k]
    requires '\n' !in sep
    ensures NewlineCount(Join(items, sep)) == 0
    decreases |items|
  {
    if |items| > 1 {
      JoinNewlines(items[1..], sep);
      assert Join(items, sep) == items[0] + sep + Join(items[1..], sep);
      assert multiset(items[0])['\n'] == 0;
      assert multiset(sep)['\n'] == 0;
    } else if |items| == 1 {
      assert multiset(items[0])['\n'] == 0;
    }
  }

  /** Each page ends with exactly one newline of its own: when no text item holds a
      newline, the text has one newline per page, so no pages give the empty text. */
  lemma {:induction false} OneNewlinePerPage(pages: seq<seq<string>>)
    requires forall p, k | 0 <= p < |pages| && 0 <= k < |pages[p]| :: '\n' !in pages[p][k]
    ensures NewlineCount(PagesText(pages)) == |pages|
    ensures pages == [] ==> PagesText(pages) == ""
    decreases |pages|
  {
    if pages != [] {
      var last := pages[|pages| - 1];
      OneNewlinePerPage(pages[..|pages| - 1]);
      JoinNewlines(last, " ");
      assert PagesText(pages) == PagesText(pages[..|pages| - 1]) + (Join(last, " ") + "\n");
    }
  }
}
