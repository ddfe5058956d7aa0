/**
 What the mail nodes write and read (nodes/email.go): nested multipart messages
 (RFC 2046, section 5.1.1) whose bodies are base64 (RFC 2045, section 6.8).

 A string is a sequence of octets, one character each. The calls into Go's
 library are the fields of a `Library`; `Faithful` is what the results assume
 of them.
 */
module Mime {
  import opened Wrappers
  import opened MimeText
  import Base64

  datatype Media = Media(name: string, parameters: map<string, string>)

  /** mime.ParseMediaType, strings.TrimSpace, the %q verb, the subject's Q encoding, and the quoted-printable reader. */
  datatype Library = Library(
    parseMedia: string -> Media, trimSpace: string -> string, quote: string -> string,
    encodeSubject: string -> string, quotedPrintable: string -> Option<string>)

  function ParseMedia(lib: Library, s: string): Media { lib.parseMedia(s) }

  function TrimSpace(lib: Library, s: string): string { lib.trimSpace(s) }

  predicate Blank(lib: Library, s: string) { TrimSpace(lib, s) == "" }

  /** Starts and ends with a printing ASCII character. */
  predicate Inked(s: string) {
    s != "" && '!' <= s[0] <= '~' && '!' <= s[|s| - 1] <= '~'
  }

  predicate IsToken(t: string) {
    |t| == 24 && forall k :: 0 <= k < 24 ==> '0' <= t[k] <= '9' || 'a' <= t[k] <= 'f'
  }

  /** The boundary minted for a kind of multipart, from a random token. */
  function BoundaryOf(kind: string, token: string): string { "----kilasflow-" + kind + "-" + token }

  predicate IsBoundary(subtype: string, b: string) {
    || (subtype == "alternative" && |b| >= 24 && IsToken(b[|b| - 24..]) && b == BoundaryOf("alt", b[|b| - 24..]))
    || (subtype == "mixed" && |b| >= 24 && IsToken(b[|b| - 24..]) && b == BoundaryOf("mixed", b[|b| - 24..]))
  }

  function TextType(subtype: string): string { "text/" + subtype + "; charset=utf-8" }

  function MultipartType(subtype: string, b: string): string {
    "multipart/" + subtype + "; boundary=\"" + b + "\""
  }

  /** What the library is taken to do: trim spaces off a value, and read back the types the writer spells. */
  ghost predicate Faithful(lib: Library) {
    && TrimSpace(lib, "") == ""
    && (forall v {:trigger Inked(v)} :: Inked(v) ==> TrimSpace(lib, v) == v && TrimSpace(lib, " " + v) == v)
    && ParseMedia(lib, TextType("plain")).name == "text/plain"
    && ParseMedia(lib, TextType("html")).name == "text/html"
    && (forall subtype, b {:trigger IsBoundary(subtype, b)} :: IsBoundary(subtype, b) ==>
          var m := ParseMedia(lib, MultipartType(subtype, b));
          m.name == "multipart/" + subtype && "boundary" in m.parameters && m.parameters["boundary"] == b)
  }

  // ----- Writing ----------------------------------------------------------

  datatype Header = Header(key: string, value: string)

  function HeaderLine(h: Header): string { h.key + ": " + h.value }

  function Lines(hs: seq<Header>): string {
    if hs == [] then "" else HeaderLine(hs[0]) + CRLF + Lines(hs[1..])
  }

  /** A message or one part of it. */
  datatype Entity = Entity(headers: seq<Header>, body: string)

  function Render(e: Entity): string { Lines(e.headers) + CRLF + e.body }

  /** Encoded text in lines of at most 76 characters. */
  function Wrapped(encoded: string): string {
    if |encoded| > 76 then encoded[..76] + CRLF + Wrapped(encoded[76..]) else encoded + CRLF
  }

  function Armored(contents: string): string
    requires Base64.IsOctets(contents)
  {
    Wrapped(Base64.Encode(contents))
  }

  const TRANSFER := Header("Content-Transfer-Encoding", "base64")

  function TextEntity(subtype: string, contents: string): Entity
    requires Base64.IsOctets(contents)
  {
    Entity([Header("Content-Type", TextType(subtype)), TRANSFER], Armored(contents))
  }

  function Delimiter(b: string): (d: string)
    ensures d != ""
  {
    "--" + b
  }

  function Delimited(b: string, parts: seq<string>): string {
    if parts == [] then Delimiter(b) + "--" + CRLF
    else Delimiter(b) + CRLF + parts[0] + Delimited(b, parts[1..])
  }

  function MultipartEntity(subtype: string, b: string, parts: seq<string>): Entity {
    Entity([Header("Content-Type", MultipartType(subtype, b))], Delimited(b, parts))
  }

  datatype Attachment = Attachment(
    contentID: string, fileName: string, mediaType: string, contents: string, disposition: string)

  datatype Message = Message(
    from: string, to: seq<string>, cc: seq<string>, replyTo: string, subject: string,
    date: string, messageID: string, text: string, html: string, attachments: seq<Attachment>)

  function AttachmentType(lib: Library, a: Attachment): string { a.mediaType + "; name=" + lib.quote(a.fileName) }

  function AttachmentHeaders(lib: Library, a: Attachment): seq<Header> {
    [Header("Content-Type", AttachmentType(lib, a)), TRANSFER]
    + (if a.contentID != "" then [Header("Content-ID", "<" + a.contentID + ">")] else [])
    + [Header("Content-Disposition", a.disposition + "; filename=" + lib.quote(a.fileName))]
  }

  function AttachmentEntity(lib: Library, a: Attachment): Entity
    requires Base64.IsOctets(a.contents)
  {
    Entity(AttachmentHeaders(lib, a), Armored(a.contents))
  }

  function Joined(values: seq<string>): string {
    if values == [] then "" else if |values| == 1 then values[0] else values[0] + ", " + Joined(values[1..])
  }

  function TopHeaders(lib: Library, msg: Message): seq<Header> {
    [Header("From", msg.from), Header("To", Joined(msg.to))]
    + (if msg.cc != [] then [Header("Cc", Joined(msg.cc))] else [])
    + (if msg.replyTo != "" then [Header("Reply-To", msg.replyTo)] else [])
    + [Header("Subject", lib.encodeSubject(msg.subject)), Header("Date", msg.date),
       Header("Message-ID", msg.messageID), Header("MIME-Version", "1.0")]
  }

  predicate HasOctets(msg: Message) {
    && Base64.IsOctets(msg.text) && Base64.IsOctets(msg.html)
    && forall k :: 0 <= k < |msg.attachments| ==> Base64.IsOctets(msg.attachments[k].contents)
  }

  /** The text, the HTML, or both as alternatives; a blank body is not written. */
  function BodyEntity(lib: Library, msg: Message, alt: string): Entity
    requires HasOctets(msg)
  {
    if Blank(lib, msg.text) then TextEntity("html", msg.html)
    else if Blank(lib, msg.html) then TextEntity("plain", msg.text)
    else MultipartEntity("alternative", alt,
                         [Render(TextEntity("plain", msg.text)), Render(TextEntity("html", msg.html))])
  }

  function AttachmentParts(lib: Library, attachments: seq<Attachment>): (parts: seq<string>)
    requires forall k :: 0 <= k < |attachments| ==> Base64.IsOctets(attachments[k].contents)
    ensures |parts| == |attachments|
    ensures forall k :: 0 <= k < |parts| ==> parts[k] == Render(AttachmentEntity(lib, attachments[k]))
  {
    if attachments == [] then []
    else [Render(AttachmentEntity(lib, attachments[0]))] + AttachmentParts(lib, attachments[1..])
  }

  function ContentEntity(lib: Library, msg: Message, alt: string, mixed: string): Entity
    requires HasOctets(msg)
  {
    var body := BodyEntity(lib, msg, alt);
    if msg.attachments == [] then body
    else MultipartEntity("mixed", mixed, [Render(body)] + AttachmentParts(lib, msg.attachments))
  }

  /** The whole message as it goes out. */
  function MessageText(lib: Library, msg: Message, alt: string, mixed: string): string
    requires HasOctets(msg)
  {
    var content := ContentEntity(lib, msg, alt, mixed);
    Render(Entity(TopHeaders(lib, msg) + content.headers, content.body))
  }

  // ----- Reading ----------------------------------------------------------

  function LowerChar(c: char): char { if 'A' <= c <= 'Z' then c - 'A' + 'a' else c }

  function Lower(s: string): (r: string)
    ensures |r| == |s| && forall k :: 0 <= k < |s| ==> r[k] == LowerChar(s[k])
  {
    if s == "" then "" else [LowerChar(s[0])] + Lower(s[1..])
  }

  function DropReturns(line: string): string {
    if line != "" && line[|line| - 1] == '\r' then DropReturns(line[..|line| - 1]) else line
  }

  /** One line of a header block: a header, more of the last header, or nothing. */
  function AddLine(lib: Library, got: seq<Header>, raw: string): seq<Header> {
    var line := DropReturns(raw);
    if line == "" then got
    else if line[0] == ' ' || line[0] == '\t' then
      if got == [] then got else
      var last := got[|got| - 1];
      got[|got| - 1 := Header(last.key, last.value + " " + TrimSpace(lib, line))]
    else
      var colon := IndexFrom(line, ":", 0);
      if colon.None? then got
      else got + [Header(TrimSpace(lib, line[..colon.value]), TrimSpace(lib, line[colon.value + 1..]))]
  }

  function AddLines(lib: Library, got: seq<Header>, lines: seq<string>): seq<Header>
    decreases lines
  {
    if lines == [] then got else AddLines(lib, AddLine(lib, got, lines[0]), lines[1..])
  }

  function ParseHeaders(lib: Library, block: string): seq<Header> { AddLines(lib, [], SplitOn(block, "\n")) }

  /** Divides at the blank line. */
  function SplitHeaders(lib: Library, raw: string): (r: (seq<Header>, string))
    ensures |r.1| <= |raw|
  {
    var strict := IndexFrom(raw, "\r\n\r\n", 0);
    if strict.Some? then (ParseHeaders(lib, raw[..strict.value]), raw[strict.value + 4..]) else
    var loose := IndexFrom(raw, "\n\n", 0);
    if loose.Some? then (ParseHeaders(lib, raw[..loose.value]), raw[loose.value + 2..])
    else (ParseHeaders(lib, raw), "")
  }

  /** The first value under a name, ignoring case, or empty text. */
  function HeaderValue(hs: seq<Header>, name: string): string {
    if hs == [] then ""
    else if Lower(hs[0].key) == Lower(name) then hs[0].value
    else HeaderValue(hs[1..], name)
  }

  function TrimPrefix(s: string): string { if CRLF <= s then s[2..] else s }

  function TrimSuffix(s: string): string { if EndsLine(s) then s[..|s| - 2] else s }

  function TakeSegments(pieces: seq<string>, ghost bound: nat): (segments: seq<string>)
    requires forall p <- pieces :: |p| < bound
    ensures forall p <- segments :: |p| < bound
  {
    if pieces == [] then [] else
    var segment := TrimPrefix(pieces[0]);
    if "--" <= segment then [] else [TrimSuffix(segment)] + TakeSegments(pieces[1..], bound)
  }

  /** The parts between the delimiters, without preamble and epilogue. */
  function Segments(body: string, b: string): (segments: seq<string>)
    ensures forall p <- segments :: |p| < |body|
  {
    var pieces := SplitOn(body, Delimiter(b));
    assert |pieces| > 1 ==> forall p <- pieces[1..] :: p in pieces;
    TakeSegments(pieces[1..], |body|)
  }

  predicate IsLineSpace(c: char) { c == '\r' || c == '\n' || c == ' ' || c == '\t' }

  function WithoutLineSpace(s: string): string {
    if s == "" then ""
    else (if IsLineSpace(s[0]) then "" else [s[0]]) + WithoutLineSpace(s[1..])
  }

  function DecodeTransfer(lib: Library, body: string, encoding: string): string {
    var scheme := Lower(TrimSpace(lib, encoding));
    if scheme == "base64" then
      var decoded := Base64.Decode(WithoutLineSpace(body));
      if decoded.Some? then decoded.value else body
    else if scheme == "quoted-printable" then
      var decoded := lib.quotedPrintable(body);
      if decoded.Some? then decoded.value else body
    else body
  }

  /** The part of a media type before its slash is the given one. */
  predicate HasKind(contentType: string, kind: string) { kind + "/" <= contentType }

  datatype Bodies = Bodies(plain: string, html: string)

  /** The first text of each kind wins. */
  function Offer(got: Bodies, partType: string, decoded: string): Bodies {
    if Lower(partType) == "text/plain" then
      if got.plain == "" then Bodies(decoded, got.html) else got
    else if Lower(partType) == "text/html" then
      if got.html == "" then Bodies(got.plain, decoded) else got
    else got
  }

  function CollectParts(lib: Library, parts: seq<string>, bound: nat, got: Bodies): Bodies
    requires forall p <- parts :: |p| < bound
    decreases bound, 0, |parts|
  {
    if parts == [] then got
    else CollectParts(lib, parts[1..], bound, CollectPart(lib, parts[0], bound, got))
  }

  function CollectPart(lib: Library, part: string, bound: nat, got: Bodies): Bodies
    requires |part| < bound
    decreases bound, 0, 0
  {
    var (headers, body) := SplitHeaders(lib, part);
    var media := ParseMedia(lib, HeaderValue(headers, "content-type"));
    var partType := if media.name == "" then "text/plain" else media.name;
    var encoding := HeaderValue(headers, "content-transfer-encoding");
    if HasKind(partType, "multipart") then Collect(lib, body, partType, media.parameters, encoding, got)
    else if HasKind(partType, "text") then Offer(got, partType, DecodeTransfer(lib, body, encoding))
    else got
  }

  function Collect(lib: Library, body: string, contentType: string, parameters: map<string, string>,
                   encoding: string, got: Bodies): Bodies
    decreases |body|, 1, 0
  {
    var kind := if contentType == "" then "text/plain" else contentType;
    if HasKind(kind, "multipart") then
      var b := if "boundary" in parameters then parameters["boundary"] else "";
      if b == "" then got else CollectParts(lib, Segments(body, b), |body|, got)
    else if HasKind(kind, "text") then
      var decoded := DecodeTransfer(lib, body, encoding);
      if Lower(kind) == "text/plain" then Bodies(decoded, got.html)
      else if Lower(kind) == "text/html" then Bodies(got.plain, decoded)
      else got
    else got
  }

  /** Without a plain text the HTML stands in for it. */
  function Finish(lib: Library, got: Bodies): Bodies {
    if got.plain == "" then Bodies(TrimSpace(lib, got.html), got.html) else got
  }

  function ParseMessage(lib: Library, raw: string): Bodies {
    var (headers, body) := SplitHeaders(lib, raw);
    var media := ParseMedia(lib, HeaderValue(headers, "content-type"));
    Finish(lib, Collect(lib, body, media.name, media.parameters,
                        HeaderValue(headers, "content-transfer-encoding"), Bodies("", "")))
  }
}
