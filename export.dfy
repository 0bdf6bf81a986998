/**
 * get_download_link: the document's bytes, base 64 encoded, inside a
 * data:text/html anchor with a download file name. The document's bytes
 * are what html.encode() gives; the caller supplies them.
 *
 * The partner is ParseLink, which reads the payload and the file name
 * back out of an anchor, and LinkedDocument, which decodes the payload.
 */
module Export {
  import opened Wrappers
  import opened Text
  import opened Base64

  const DefaultFilename: string := "meeting.html"

  const LinkOpen: string := "<a href=\"data:text/html;base64,"
  const LinkMiddle: string := "\"" + " download=\""
  const LinkClose: string := "\"" + " target=\"_blank\">\U{1F4C4} Download MoM as HTML</a>"

  /** get_download_link(html, filename="meeting.html"), given html.encode(). */
  function DownloadLink(document: seq<byte>, filename: string := DefaultFilename): string {
    LinkOpen + (Encode(document) + (LinkMiddle + (filename + LinkClose)))
  }

  datatype LinkTarget = LinkTarget(payload: string, filename: string)

  /** Reads the base 64 payload and the file name out of an anchor of the shape DownloadLink builds. */
  function ParseLink(link: string): (r: Option<LinkTarget>) {
    var r0 :- Chop(link, LinkOpen);
    var (payload, r1) := Field(r0, '"');
    var r2 :- Chop(r1, LinkMiddle);
    var (name, r3) := Field(r2, '"');
    if r3 == LinkClose then Some(LinkTarget(payload, name)) else None
  }

  /** The document a link carries, as a browser saving it would write it. */
  function LinkedDocument(link: string): (r: Option<seq<byte>>) {
    var target :- ParseLink(link);
    Decode(target.payload)
  }

  /** A base 64 payload never contains the quote that ends the href attribute. */
  lemma PayloadHasNoQuote(document: seq<byte>)
    ensures '"' !in Encode(document)
  {
    var e := Encode(document);
    EncodeCharacters(document);
    forall i | 0 <= i < |e| ensures e[i] != '"' {
      if i < |e| - PadCount(|document|) {
        assert IsAlphabetChar(e[i]);
      }
    }
  }

  lemma LinkShape()
    ensures |LinkMiddle| > 0 && LinkMiddle[0] == '"'
    ensures |LinkClose| > 0 && LinkClose[0] == '"'
  {
  }

  /**
   * The link carries exactly the base 64 encoding of the document and the
   * file name it was given (one without a quote in it), and decoding the
   * payload gives back the document's bytes.
   */
  lemma ReadDownloadLink(document: seq<byte>, filename: string)
    requires '"' !in filename
    ensures ParseLink(DownloadLink(document, filename)) == Some(LinkTarget(Encode(document), filename))
    ensures LinkedDocument(DownloadLink(document, filename)) == Some(document)
  {
    var payload := Encode(document);
    var r3 := LinkClose;
    var r2 := filename + r3;
    var r1 := LinkMiddle + r2;
    var r0 := payload + r1;
    assert DownloadLink(document, filename) == LinkOpen + r0;
    LinkShape();
    PayloadHasNoQuote(document);
    assert (LinkMiddle + r2)[0] == '"';
    assert (LinkClose + [])[0] == '"';
    ChopLiteral(LinkOpen, r0);
    FieldOf(payload, '"', r1);
    ChopLiteral(LinkMiddle, r2);
    FieldOf(filename, '"', r3);
    DecodeEncode(document);
  }

  /** Without a file name the link offers "meeting.html". */
  lemma DefaultDownloadName(document: seq<byte>)
    ensures ParseLink(DownloadLink(document)) == Some(LinkTarget(Encode(document), "meeting.html"))
  {
    ReadDownloadLink(document, DefaultFilename);
  }
}
