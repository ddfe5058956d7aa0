/** The round trip of a whole message: what buildEmailMessage writes, parseEmailMessage reads. */
module MimeTheorem {
  import opened MimeText
  import opened Mime
  import opened MimeRoundTrip
  import Base64

  /**
   No header value holds a line break. The sending node checks this of the
   sender, the subject, the reply address and the recipients; of an
   attachment's media type, and of the property name that stands in for its
   file name and content id, it is taken for granted.
   */
  predicate Unbroken(hs: seq<Header>) { forall k :: 0 <= k < |hs| ==> NoBreak(hs[k].value) }

  /** What the header values of a message must not hold: a break, or the delimiter of its parts. */
  ghost predicate CleanHeaders(lib: Library, msg: Message, mixed: string) {
    && Unbroken(TopHeaders(lib, msg))
    && forall k :: 0 <= k < |msg.attachments| ==> CleanAttachment(lib, msg.attachments[k], mixed)
  }

  ghost predicate CleanAttachment(lib: Library, a: Attachment, mixed: string) {
    && Base64.IsOctets(a.contents)
    && Unbroken(AttachmentHeaders(lib, a)) && FreeLines(AttachmentHeaders(lib, a), Delimiter(mixed))
  }

  /** The bodies a message is written with. */
  function Written(lib: Library, msg: Message): Bodies {
    if Blank(lib, msg.text) then Bodies("", msg.html)
    else if Blank(lib, msg.html) then Bodies(msg.text, "")
    else Bodies(msg.text, msg.html)
  }

  /** What reading an attachment adds: a text attachment offers its contents as a body. */
  function AttachmentEffect(lib: Library, a: Attachment, got: Bodies): Bodies
    requires Base64.IsOctets(a.contents)
  {
    var media := ParseMedia(lib, TrimSpace(lib, " " + AttachmentType(lib, a)));
    var partType := if media.name == "" then "text/plain" else media.name;
    if HasKind(partType, "multipart") then
      Collect(lib, TrimSuffix(Armored(a.contents)), partType, media.parameters, "base64", got)
    else if HasKind(partType, "text") then Offer(got, partType, a.contents)
    else got
  }

  function AttachmentsEffect(lib: Library, attachments: seq<Attachment>, got: Bodies): Bodies
    requires forall k :: 0 <= k < |attachments| ==> Base64.IsOctets(attachments[k].contents)
  {
    if attachments == [] then got
    else AttachmentsEffect(lib, attachments[1..], AttachmentEffect(lib, attachments[0], got))
  }

  // ----- The alternatives -------------------------------------------------

  lemma MultipartReads(lib: Library, subtype: string, b: string, parts: seq<string>, close: string,
                       parameters: map<string, string>, encoding: string, got: Bodies)
    requires IsBoundary(subtype, b) && AreParts(parts, Delimiter(b))
    requires close == "--" || close == "--" + CRLF
    requires "boundary" in parameters && parameters["boundary"] == b
    ensures var body := Framed(b, parts, close);
      && (forall p <- AllShorn(parts) :: |p| < |body|)
      && Collect(lib, body, "multipart/" + subtype, parameters, encoding, got)
         == CollectParts(lib, AllShorn(parts), |body|, got)
  {
    hide CollectParts, Segments, Framed, AllShorn;
    DelimiterForm(subtype, b);
    SegmentsOfFramed(b, parts, close);
    assert "multipart" + "/" == "multipart/";
  }

  lemma TakePart(lib: Library, p: string, rest: seq<string>, bound: nat, got: Bodies)
    requires |p| < bound && forall q <- rest :: |q| < bound
    ensures CollectParts(lib, [p] + rest, bound, got) == CollectParts(lib, rest, bound, CollectPart(lib, p, bound, got))
    ensures CollectParts(lib, [], bound, got) == got
  {
    hide CollectPart, Collect;
    assert ([p] + rest)[1..] == rest;
  }

  lemma TwoParts(lib: Library, p: string, q: string, bound: nat, got: Bodies)
    requires |p| < bound && |q| < bound
    ensures CollectParts(lib, [p, q], bound, got) == CollectPart(lib, q, bound, CollectPart(lib, p, bound, got))
  {
    hide CollectPart, Collect;
    TakePart(lib, p, [q], bound, got);
    TakePart(lib, q, [], bound, CollectPart(lib, p, bound, got));
    assert [p] + [q] == [p, q] && [q] + [] == [q];
  }

  lemma TwoShorn(p: string, q: string)
    ensures AllShorn([p, q]) == [TrimSuffix(p), TrimSuffix(q)]
  {
    assert [p, q][1..] == [q] && [q][1..] == [];
    assert AllShorn([]) == [];
    assert AllShorn([q]) == [TrimSuffix(q)];
  }

  lemma AlternativesAreParts(text: string, html: string, d: string)
    requires Base64.IsOctets(text) && Base64.IsOctets(html) && SIX <= d && NoBreak(d)
    ensures AreParts(Alternatives(text, html), d)
    ensures AllShorn(Alternatives(text, html)) == ShornAlternatives(text, html)
  {
    hide Occurs, Free, Render, Armored, TrimSuffix, NoBreak, TextType;
    var plain, rich := TextEntity("plain", text), TextEntity("html", html);
    TextEntityIsFree("plain", text, d);
    TextEntityIsFree("html", html, d);
    ShornRender(plain);
    ShornRender(rich);
    StartsWithKey(plain);
    StartsWithKey(rich);
    var parts := Alternatives(text, html);
    assert parts == [Render(plain), Render(rich)];
    TwoShorn(Render(plain), Render(rich));
    assert IsPart(parts[0], d) && IsPart(parts[1], d);
  }

  function Alternatives(text: string, html: string): seq<string>
    requires Base64.IsOctets(text) && Base64.IsOctets(html)
  {
    [Render(TextEntity("plain", text)), Render(TextEntity("html", html))]
  }

  function ShornAlternatives(text: string, html: string): seq<string>
    requires Base64.IsOctets(text) && Base64.IsOctets(html)
  {
    [Render(ShornEntity(TextEntity("plain", text))), Render(ShornEntity(TextEntity("html", html)))]
  }

  /** A rendered entity starts with its first key. */
  lemma StartsWithKey(e: Entity)
    requires e.headers != [] && Inked(e.headers[0].key)
    ensures Render(e) != "" && Render(e)[0] == e.headers[0].key[0]
  {
  }

  /** Reading the alternatives offers the text and then the HTML. */
  lemma AlternativeReads(lib: Library, text: string, html: string, alt: string, close: string,
                         parameters: map<string, string>, encoding: string, got: Bodies)
    requires Faithful(lib) && Base64.IsOctets(text) && Base64.IsOctets(html) && IsBoundary("alternative", alt)
    requires close == "--" || close == "--" + CRLF
    requires "boundary" in parameters && parameters["boundary"] == alt
    ensures Collect(lib, Framed(alt, Alternatives(text, html), close), "multipart/alternative", parameters, encoding,
      got)
         == Offer(Offer(got, "text/plain", text), "text/html", html)
  {
    hide Collect, CollectPart, CollectParts, Framed, Offer, AllShorn, Alternatives, ShornAlternatives, AreParts,
         IsBoundary, Faithful, Delimiter, Stem, NoDouble, NoBreak;
    DelimiterForm("alternative", alt);
    AlternativesAreParts(text, html, Delimiter(alt));
    var body := Framed(alt, Alternatives(text, html), close);
    MultipartReads(lib, "alternative", alt, Alternatives(text, html), close, parameters, encoding, got);
    assert "multipart/" + "alternative" == "multipart/alternative";
    AlternativePartsRead(lib, text, html, |body|, got);
  }

  lemma AlternativePartsRead(lib: Library, text: string, html: string, bound: nat, got: Bodies)
    requires Faithful(lib) && Base64.IsOctets(text) && Base64.IsOctets(html)
    requires forall p <- ShornAlternatives(text, html) :: |p| < bound
    ensures CollectParts(lib, ShornAlternatives(text, html), bound, got)
         == Offer(Offer(got, "text/plain", text), "text/html", html)
  {
    hide Collect, CollectPart, Offer, Render, Armored, Faithful;
    var shorn := ShornAlternatives(text, html);
    assert shorn[0] in shorn && shorn[1] in shorn;
    TwoParts(lib, shorn[0], shorn[1], bound, got);
    assert shorn == [shorn[0], shorn[1]];
    TextPartReads(lib, "plain", text, bound, got);
    TextPartReads(lib, "html", html, bound, Offer(got, "text/plain", text));
  }

  // ----- The parts of a mixed message -------------------------------------

  lemma MultipartHeaders(lib: Library, subtype: string, b: string)
    requires Faithful(lib) && IsBoundary(subtype, b)
    ensures var h := Header("Content-Type", MultipartType(subtype, b));
      AllWritable([h]) && HeaderValue(AllAsRead(lib, [h]), "content-type") == MultipartType(subtype, b)
  {
    hide AllAsRead, HeaderValue, Lower, MultipartType, IsBoundary;
    MultipartTypeLine(subtype, b);
    TypeKey();
    var h := Header("Content-Type", MultipartType(subtype, b));
    FirstHeader(lib, h, [], "content-type");
    assert [h] + [] == [h];
  }

  lemma MultipartMedia(lib: Library, subtype: string, b: string)
    requires Faithful(lib) && IsBoundary(subtype, b)
    ensures var m := ParseMedia(lib, MultipartType(subtype, b));
      m.name == "multipart/" + subtype && "boundary" in m.parameters && m.parameters["boundary"] == b
  {
    hide IsBoundary, MultipartType;
  }

  /** What a part with these headers, as read, and this body does. */
  function PartEffect(lib: Library, media: Media, encoding: string, body: string, got: Bodies): Bodies {
    var partType := if media.name == "" then "text/plain" else media.name;
    if HasKind(partType, "multipart") then Collect(lib, body, partType, media.parameters, encoding, got)
    else if HasKind(partType, "text") then Offer(got, partType, DecodeTransfer(lib, body, encoding))
    else got
  }

  lemma PartReads(lib: Library, e: Entity, bound: nat, got: Bodies)
    requires Faithful(lib) && e.headers != [] && AllWritable(e.headers) && |Render(e)| < bound
    ensures var hs := AllAsRead(lib, e.headers);
      CollectPart(lib, Render(e), bound, got)
      == PartEffect(lib, ParseMedia(lib, HeaderValue(hs, "content-type")),
                    HeaderValue(hs, "content-transfer-encoding"), e.body, got)
  {
    hide Collect, Offer, DecodeTransfer, Faithful, AllAsRead, AllWritable, HeaderValue, SplitHeaders, Render;
    RenderedSplits(lib, e);
  }

  lemma MultipartKinds()
    ensures HasKind("multipart/alternative", "multipart") && HasKind("multipart/mixed", "multipart")
    ensures "multipart/" + "alternative" == "multipart/alternative" && "multipart/" + "mixed" == "multipart/mixed"
    ensures "multipart/alternative" != "" && "multipart/mixed" != ""
  {
    assert "multipart" + "/" == "multipart/";
  }

  lemma DelimitedShorn(b: string, parts: seq<string>)
    ensures EndsLine(Delimited(b, parts)) && TrimSuffix(Delimited(b, parts)) == Framed(b, parts, "--")
  {
    DelimitedIsFramed(b, parts);
    EndsLater(Framed(b, parts, "--"), CRLF);
  }

  /** Nested in a mixed message, the alternatives are read like a message of their own. */
  lemma AlternativePartReads(lib: Library, text: string, html: string, alt: string, bound: nat, got: Bodies)
    requires Faithful(lib) && Base64.IsOctets(text) && Base64.IsOctets(html) && IsBoundary("alternative", alt)
    requires |Render(ShornEntity(MultipartEntity("alternative", alt, Alternatives(text, html))))| < bound
    ensures CollectPart(lib, Render(ShornEntity(MultipartEntity("alternative", alt, Alternatives(text, html)))), bound,
      got)
         == Offer(Offer(got, "text/plain", text), "text/html", html)
  {
    hide Collect, CollectPart, Offer, Framed, Delimited, Alternatives, Render, TrimSuffix, AllAsRead, HeaderValue,
         MultipartType, HasKind, AllWritable;
    var e := ShornEntity(MultipartEntity("alternative", alt, Alternatives(text, html)));
    MultipartHeaders(lib, "alternative", alt);
    PartReads(lib, e, bound, got);
    DelimitedShorn(alt, Alternatives(text, html));
    MultipartKinds();
    var media := ParseMedia(lib, MultipartType("alternative", alt));
    AlternativeReads(lib, text, html, alt, "--", media.parameters,
                     HeaderValue(AllAsRead(lib, e.headers), "content-transfer-encoding"), got);
  }

  /** The body of a message, as the first part of a mixed one. */
  lemma BodyPartReads(lib: Library, msg: Message, alt: string, bound: nat)
    requires Faithful(lib) && HasOctets(msg) && IsBoundary("alternative", alt)
    requires |Render(ShornEntity(BodyEntity(lib, msg, alt)))| < bound
    ensures CollectPart(lib, Render(ShornEntity(BodyEntity(lib, msg, alt))), bound, Bodies("", "")) == Written(lib, msg)
  {
    hide CollectPart, Collect, Render, ShornEntity, MultipartEntity, TextEntity;
    OffersToNothing(msg.text, msg.html);
    if Blank(lib, msg.text) {
      TextPartReads(lib, "html", msg.html, bound, Bodies("", ""));
    } else if Blank(lib, msg.html) {
      TextPartReads(lib, "plain", msg.text, bound, Bodies("", ""));
    } else {
      AlternativePartReads(lib, msg.text, msg.html, alt, bound, Bodies("", ""));
    }
  }

  lemma OffersToNothing(text: string, html: string)
    ensures Offer(Bodies("", ""), "text/plain", text) == Bodies(text, "")
    ensures Offer(Bodies("", ""), "text/html", html) == Bodies("", html)
    ensures Offer(Offer(Bodies("", ""), "text/plain", text), "text/html", html) == Bodies(text, html)
  {
    TextKinds();
  }

  lemma AttachmentHeadersWritable(lib: Library, a: Attachment)
    requires Unbroken(AttachmentHeaders(lib, a))
    ensures AllWritable(AttachmentHeaders(lib, a))
  {
    KeyIsWritable("Content-Type");
    KeyIsWritable("Content-Transfer-Encoding");
    KeyIsWritable("Content-ID");
    KeyIsWritable("Content-Disposition");
  }

  /** The headers of an attachment after its type and encoding. */
  function LaterHeaders(lib: Library, a: Attachment): seq<Header> {
    (if a.contentID != "" then [Header("Content-ID", "<" + a.contentID + ">")] else [])
    + [Header("Content-Disposition", a.disposition + "; filename=" + lib.quote(a.fileName))]
  }

  lemma AttachmentPartReads(lib: Library, a: Attachment, mixed: string, bound: nat, got: Bodies)
    requires Faithful(lib) && CleanAttachment(lib, a, mixed)
    requires |Render(ShornEntity(AttachmentEntity(lib, a)))| < bound
    ensures CollectPart(lib, Render(ShornEntity(AttachmentEntity(lib, a))), bound, got) == AttachmentEffect(lib, a, got)
  {
    hide Collect, CollectPart, Offer, Render, TrimSuffix, Armored, DecodeTransfer, AllAsRead, HeaderValue, HasKind,
         AllWritable;
    var e := ShornEntity(AttachmentEntity(lib, a));
    AttachmentHeadersWritable(lib, a);
    PartReads(lib, e, bound, got);
    assert e.headers == [Header("Content-Type", AttachmentType(lib, a)), TRANSFER] + LaterHeaders(lib, a);
    DeclaredHeaders(lib, AttachmentType(lib, a), LaterHeaders(lib, a));
    ArmoredDecodes(lib, a.contents);
  }

  lemma {:induction false} AttachmentsRead(lib: Library, attachments: seq<Attachment>, mixed: string, bound: nat,
                                           got: Bodies)
    requires Faithful(lib)
    requires forall k :: 0 <= k < |attachments| ==> Base64.IsOctets(attachments[k].contents)
    requires forall k :: 0 <= k < |attachments| ==> CleanAttachment(lib, attachments[k], mixed)
    requires forall p <- AllShorn(AttachmentParts(lib, attachments)) :: |p| < bound
    ensures CollectParts(lib, AllShorn(AttachmentParts(lib, attachments)), bound, got)
         == AttachmentsEffect(lib, attachments, got)
    decreases attachments
  {
    hide Collect, CollectPart, Render, AttachmentEffect, CleanAttachment, Faithful;
    if attachments != [] {
      var e := AttachmentEntity(lib, attachments[0]);
      var first, rest := TrimSuffix(Render(e)), AllShorn(AttachmentParts(lib, attachments[1..]));
      ArmoredEnds(attachments[0].contents);
      ShornRender(e);
      var parts := AttachmentParts(lib, attachments);
      assert parts[1..] == AttachmentParts(lib, attachments[1..]);
      assert AllShorn(parts) == [first] + rest;
      assert first in [first] + rest && forall p <- rest :: p in [first] + rest;
      AttachmentPartReads(lib, attachments[0], mixed, bound, got);
      TakePart(lib, first, rest, bound, got);
      AttachmentsRead(lib, attachments[1..], mixed, bound, AttachmentEffect(lib, attachments[0], got));
    }
  }

  lemma ArmoredEnds(contents: string)
    requires Base64.IsOctets(contents)
    ensures EndsLine(Armored(contents))
  {
    WrappedEndsLine(Base64.Encode(contents));
  }

  // ----- Every part is a part ---------------------------------------------

  lemma EntityIsPart(e: Entity, d: string)
    requires e.headers != [] && Inked(e.headers[0].key) && e.headers[0].key[0] != '-'
    requires EndsLine(e.body) && Free(Render(e), d)
    ensures IsPart(Render(e), d)
  {
    ShornRender(e);
    StartsWithKey(e);
  }

  /** A delimiter line of the alternatives, as a line of the mixed body. */
  lemma DelimiterLineIsFree(alt: string, mixed: string, close: string)
    requires IsBoundary("alternative", alt) && IsBoundary("mixed", mixed) && (close == "" || close == "--")
    ensures Free(Delimiter(alt) + close + CRLF, Delimiter(mixed)) && EndsLine(Delimiter(alt) + close + CRLF)
  {
    DelimiterForm("mixed", mixed);
    OtherDelimiterIsFree(alt, mixed, close);
    FreeLine(Delimiter(alt) + close, Delimiter(mixed));
    EndsLater(Delimiter(alt) + close, CRLF);
  }

  lemma {:induction false} DelimitedIsFree(alt: string, mixed: string, parts: seq<string>)
    requires IsBoundary("alternative", alt) && IsBoundary("mixed", mixed) && AreParts(parts, Delimiter(mixed))
    ensures Free(Delimited(alt, parts), Delimiter(mixed))
    decreases parts
  {
    hide Free, Delimiter, IsBoundary, EndsLine, NoBreak;
    var d := Delimiter(mixed);
    DelimiterForm("mixed", mixed);
    if parts == [] {
      DelimiterLineIsFree(alt, mixed, "--");
    } else {
      DelimiterLineIsFree(alt, mixed, "");
      DelimitedIsFree(alt, mixed, parts[1..]);
      assert IsPart(parts[0], d);
      var line := Delimiter(alt) + "" + CRLF;
      assert line == Delimiter(alt) + CRLF;
      FreeJoin(line, parts[0], d);
      EndsLater(line, parts[0]);
      FreeJoin(line + parts[0], Delimited(alt, parts[1..]), d);
    }
  }

  lemma BodyIsPart(lib: Library, msg: Message, alt: string, mixed: string)
    requires HasOctets(msg) && IsBoundary("alternative", alt) && IsBoundary("mixed", mixed)
    ensures EndsLine(BodyEntity(lib, msg, alt).body) && IsPart(Render(BodyEntity(lib, msg, alt)), Delimiter(mixed))
  {
    hide Free, Delimiter, IsBoundary, EndsLine, NoBreak, Armored, Delimited, IsPart, AreParts;
    var d := Delimiter(mixed);
    DelimiterForm("mixed", mixed);
    KeyIsWritable("Content-Type");
    var e := BodyEntity(lib, msg, alt);
    if Blank(lib, msg.text) {
      TextEntityIsFree("html", msg.html, d);
    } else if Blank(lib, msg.html) {
      TextEntityIsFree("plain", msg.text, d);
    } else {
      AlternativesAreParts(msg.text, msg.html, d);
      AlternativeEntityIsFree(alt, mixed, Alternatives(msg.text, msg.html));
    }
    EntityIsPart(e, d);
  }

  lemma AlternativeEntityIsFree(alt: string, mixed: string, parts: seq<string>)
    requires IsBoundary("alternative", alt) && IsBoundary("mixed", mixed) && AreParts(parts, Delimiter(mixed))
    ensures var e := MultipartEntity("alternative", alt, parts);
      Free(Render(e), Delimiter(mixed)) && EndsLine(e.body)
  {
    hide Free, IsBoundary, EndsLine, NoBreak, Delimited, MultipartType, AreParts, Delimiter;
    var e := MultipartEntity("alternative", alt, parts);
    var d := Delimiter(mixed);
    DelimiterForm("mixed", mixed);
    DelimitedIsFree(alt, mixed, parts);
    DelimitedShorn(alt, parts);
    MultipartTypeLine("alternative", alt);
    FreeOfSix(HeaderLine(e.headers[0]), d);
    RenderIsFree(e, d);
  }

  lemma AttachmentIsPart(lib: Library, a: Attachment, mixed: string)
    requires CleanAttachment(lib, a, mixed) && IsBoundary("mixed", mixed)
    ensures IsPart(Render(AttachmentEntity(lib, a)), Delimiter(mixed))
  {
    hide Free, IsBoundary, EndsLine, NoBreak, IsPart, Armored, Delimiter;
    var e := AttachmentEntity(lib, a);
    DelimiterForm("mixed", mixed);
    ArmoredIsFree(a.contents, Delimiter(mixed));
    RenderIsFree(e, Delimiter(mixed));
    KeyIsWritable("Content-Type");
    EntityIsPart(e, Delimiter(mixed));
  }

  // ----- The whole message ------------------------------------------------

  predicate IsTopKey(key: string) {
    key == "From" || key == "To" || key == "Cc" || key == "Reply-To" || key == "Subject"
    || key == "Date" || key == "Message-ID" || key == "MIME-Version"
  }

  lemma TopKey(key: string)
    requires IsTopKey(key)
    ensures Inked(key) && NoBreak(key) && forall k :: 0 <= k < |key| ==> key[k] != ':'
  {
  }

  lemma TopKeyIsOther(key: string)
    requires IsTopKey(key)
    ensures OtherKey(key)
  {
    hide Lower;
    LowerStart("content-type");
    LowerStart("content-transfer-encoding");
    LowerStart(key);
    assert |key| == 2 || (|key| <= 12 && LowerChar(key[0]) != 'c');
  }

  lemma LowerStart(s: string)
    requires s != ""
    ensures |Lower(s)| == |s| && Lower(s)[0] == LowerChar(s[0])
  {
  }

  lemma TopIsWritable(lib: Library, msg: Message)
    requires Unbroken(TopHeaders(lib, msg))
    ensures AllWritable(TopHeaders(lib, msg))
    ensures OtherKeys(TopHeaders(lib, msg))
  {
    hide Lower, NoBreak, Joined;
    var top := TopHeaders(lib, msg);
    forall k | 0 <= k < |top| ensures Writable(top[k]) && OtherKey(top[k].key) {
      TopKey(top[k].key);
      TopKeyIsOther(top[k].key);
    }
  }

  predicate OtherKey(key: string) {
    Lower(key) != Lower("content-type") && Lower(key) != Lower("content-transfer-encoding")
  }

  predicate OtherKeys(hs: seq<Header>) { forall k :: 0 <= k < |hs| ==> OtherKey(hs[k].key) }

  lemma {:induction false} SkipsOthers(lib: Library, top: seq<Header>, hs: seq<Header>)
    requires OtherKeys(top)
    ensures HeaderValue(AllAsRead(lib, top + hs), "content-type") == HeaderValue(AllAsRead(lib, hs), "content-type")
    ensures HeaderValue(AllAsRead(lib, top + hs), "content-transfer-encoding")
         == HeaderValue(AllAsRead(lib, hs), "content-transfer-encoding")
    decreases top
  {
    hide Lower, AllAsRead, HeaderValue;
    if top == [] {
      assert top + hs == hs;
    } else {
      assert OtherKey(top[0].key);
      assert top + hs == [top[0]] + (top[1..] + hs);
      SkipHeader(lib, top[0], top[1..] + hs, "content-type");
      SkipHeader(lib, top[0], top[1..] + hs, "content-transfer-encoding");
      SkipsOthers(lib, top[1..], hs);
    }
  }

  /** Reading a message comes down to its content headers and its body. */
  lemma MessageReads(lib: Library, msg: Message, content: Entity)
    requires Faithful(lib) && Unbroken(TopHeaders(lib, msg)) && AllWritable(content.headers)
    ensures var hs := AllAsRead(lib, content.headers);
            var media := ParseMedia(lib, HeaderValue(hs, "content-type"));
      ParseMessage(lib, Render(Entity(TopHeaders(lib, msg) + content.headers, content.body)))
      == Finish(lib, Collect(lib, content.body, media.name, media.parameters,
                             HeaderValue(hs, "content-transfer-encoding"), Bodies("", "")))
  {
    hide Collect, Finish, AllAsRead, HeaderValue, Render, SplitHeaders, TopHeaders, Faithful;
    var top := TopHeaders(lib, msg);
    TopIsWritable(lib, msg);
    var whole := Entity(top + content.headers, content.body);
    TopIsNotEmpty(lib, msg);
    RenderedSplits(lib, whole);
    SkipsOthers(lib, top, content.headers);
  }

  lemma TopIsNotEmpty(lib: Library, msg: Message)
    ensures TopHeaders(lib, msg) != []
  {
  }

  /** A message of one text, read at the top. */
  lemma TextContentReads(lib: Library, subtype: string, contents: string)
    requires Faithful(lib) && Base64.IsOctets(contents) && (subtype == "plain" || subtype == "html")
    ensures var e := TextEntity(subtype, contents);
            var hs := AllAsRead(lib, e.headers);
            var media := ParseMedia(lib, HeaderValue(hs, "content-type"));
      && AllWritable(e.headers)
      && Collect(lib, e.body, media.name, media.parameters, HeaderValue(hs, "content-transfer-encoding"),
        Bodies("", ""))
         == if subtype == "plain" then Bodies(contents, "") else Bodies("", contents)
  {
    hide AllAsRead, HeaderValue, Armored, DecodeTransfer, CollectParts, Segments, HasKind, TextType, Lower;
    var e := TextEntity(subtype, contents);
    TextTypeLine(subtype);
    TransferLine();
    assert e.headers == [Header("Content-Type", TextType(subtype)), TRANSFER] + [];
    DeclaredHeaders(lib, TextType(subtype), []);
    ArmoredDecodes(lib, contents);
    TextKinds();
  }

  lemma MixedContentReads(lib: Library, msg: Message, alt: string, mixed: string)
    requires Faithful(lib) && HasOctets(msg) && CleanHeaders(lib, msg, mixed) && msg.attachments != []
    requires IsBoundary("alternative", alt) && IsBoundary("mixed", mixed)
    ensures var e := ContentEntity(lib, msg, alt, mixed);
            var hs := AllAsRead(lib, e.headers);
            var media := ParseMedia(lib, HeaderValue(hs, "content-type"));
      && AllWritable(e.headers)
      && Collect(lib, e.body, media.name, media.parameters, HeaderValue(hs, "content-transfer-encoding"),
        Bodies("", ""))
         == AttachmentsEffect(lib, msg.attachments, Written(lib, msg))
  {
    hide AllAsRead, HeaderValue, Collect, CollectParts, CollectPart, BodyEntity, AttachmentParts, Delimited, Framed,
         AllShorn, AreParts, AttachmentsEffect, Written, MultipartType, Delimiter, Render, CleanHeaders, Faithful,
         IsBoundary;
    var body := BodyEntity(lib, msg, alt);
    var attached := AttachmentParts(lib, msg.attachments);
    var parts := [Render(body)] + attached;
    MixedAreParts(lib, msg, alt, mixed);
    MultipartHeaders(lib, "mixed", mixed);
    MultipartKinds();
    MultipartMedia(lib, "mixed", mixed);
    var media := ParseMedia(lib, MultipartType("mixed", mixed));
    DelimitedIsFramed(mixed, parts);
    var framed := Framed(mixed, parts, "--" + CRLF);
    var encoding := HeaderValue(AllAsRead(lib, [Header("Content-Type", MultipartType("mixed", mixed))]),
                                "content-transfer-encoding");
    MultipartReads(lib, "mixed", mixed, parts, "--" + CRLF, media.parameters, encoding, Bodies("", ""));
    MixedPartsRead(lib, msg, alt, mixed, |framed|);
  }

  /** The body and the attachments are parts of the outer multipart. */
  lemma MixedAreParts(lib: Library, msg: Message, alt: string, mixed: string)
    requires HasOctets(msg) && CleanHeaders(lib, msg, mixed)
    requires IsBoundary("alternative", alt) && IsBoundary("mixed", mixed)
    ensures AreParts([Render(BodyEntity(lib, msg, alt))] + AttachmentParts(lib, msg.attachments), Delimiter(mixed))
    ensures EndsLine(BodyEntity(lib, msg, alt).body)
  {
    hide BodyEntity, IsPart, Delimiter, Render, TopHeaders;
    var parts := [Render(BodyEntity(lib, msg, alt))] + AttachmentParts(lib, msg.attachments);
    BodyIsPart(lib, msg, alt, mixed);
    forall k | 0 <= k < |parts| ensures IsPart(parts[k], Delimiter(mixed)) {
      if k > 0 {
        AttachmentIsPart(lib, msg.attachments[k - 1], mixed);
      }
    }
  }

  lemma MixedPartsRead(lib: Library, msg: Message, alt: string, mixed: string, bound: nat)
    requires Faithful(lib) && HasOctets(msg) && CleanHeaders(lib, msg, mixed) && IsBoundary("alternative", alt)
    requires EndsLine(BodyEntity(lib, msg, alt).body)
    requires forall p <- AllShorn([Render(BodyEntity(lib, msg, alt))] + AttachmentParts(lib, msg.attachments)) ::
      |p| < bound
    ensures CollectParts(lib, AllShorn([Render(BodyEntity(lib, msg, alt))] + AttachmentParts(lib, msg.attachments)),
                         bound, Bodies("", ""))
         == AttachmentsEffect(lib, msg.attachments, Written(lib, msg))
  {
    hide Collect, CollectPart, BodyEntity, AttachmentParts, AttachmentsEffect, Written, Render;
    var body := BodyEntity(lib, msg, alt);
    var attached := AttachmentParts(lib, msg.attachments);
    ShornRender(body);
    var first, rest := TrimSuffix(Render(body)), AllShorn(attached);
    assert ([Render(body)] + attached)[1..] == attached;
    assert AllShorn([Render(body)] + attached) == [first] + rest;
    assert first in [first] + rest && forall p <- rest :: p in [first] + rest;
    TakePart(lib, first, rest, bound, Bodies("", ""));
    BodyPartReads(lib, msg, alt, bound);
    AttachmentsRead(lib, msg.attachments, mixed, bound, Written(lib, msg));
  }

  /**
   Parsing a built message gives exactly the bodies it was written with, then
   what its attachments add, for any octets in bodies and attachments.
   */
  lemma RoundTrip(lib: Library, msg: Message, alt: string, mixed: string)
    requires Faithful(lib) && HasOctets(msg) && CleanHeaders(lib, msg, mixed)
    requires IsBoundary("alternative", alt) && IsBoundary("mixed", mixed)
    ensures ParseMessage(lib, MessageText(lib, msg, alt, mixed))
         == Finish(lib, AttachmentsEffect(lib, msg.attachments, Written(lib, msg)))
  {
    hide Collect, Finish, AllAsRead, HeaderValue, Render, TopHeaders, ParseMessage, TextEntity;
    var content := ContentEntity(lib, msg, alt, mixed);
    if msg.attachments != [] {
      MixedContentReads(lib, msg, alt, mixed);
    } else if Blank(lib, msg.text) {
      TextContentReads(lib, "html", msg.html);
    } else if Blank(lib, msg.html) {
      TextContentReads(lib, "plain", msg.text);
    } else {
      AlternativeContentReads(lib, msg.text, msg.html, alt);
    }
    MessageReads(lib, msg, content);
  }

  lemma AlternativeContentReads(lib: Library, text: string, html: string, alt: string)
    requires Faithful(lib) && Base64.IsOctets(text) && Base64.IsOctets(html) && IsBoundary("alternative", alt)
    ensures var e := MultipartEntity("alternative", alt, Alternatives(text, html));
            var hs := AllAsRead(lib, e.headers);
            var media := ParseMedia(lib, HeaderValue(hs, "content-type"));
      && AllWritable(e.headers)
      && Collect(lib, e.body, media.name, media.parameters, HeaderValue(hs, "content-transfer-encoding"),
        Bodies("", ""))
         == Bodies(text, html)
  {
    hide AllAsRead, HeaderValue, Collect, Delimited, Framed, Alternatives, MultipartType, Offer;
    var e := MultipartEntity("alternative", alt, Alternatives(text, html));
    MultipartHeaders(lib, "alternative", alt);
    MultipartKinds();
    var media := ParseMedia(lib, MultipartType("alternative", alt));
    DelimitedIsFramed(alt, Alternatives(text, html));
    AlternativeReads(lib, text, html, alt, "--" + CRLF, media.parameters,
                     HeaderValue(AllAsRead(lib, e.headers), "content-transfer-encoding"), Bodies("", ""));
    OffersToNothing(text, html);
  }

  // ----- What a caller may rely on ----------------------------------------

  /** Reading a part never changes a body that is already there. */
  lemma {:induction false} PartKeepsBodies(lib: Library, part: string, bound: nat, got: Bodies)
    requires |part| < bound
    ensures Keeps(got, CollectPart(lib, part, bound, got))
    decreases bound, 0, 0
  {
    hide SplitHeaders, HeaderValue, DecodeTransfer, Lower, CollectParts, Segments;
    var (headers, body) := SplitHeaders(lib, part);
    var media := ParseMedia(lib, HeaderValue(headers, "content-type"));
    var partType := if media.name == "" then "text/plain" else media.name;
    if HasKind(partType, "multipart") {
      MultipartKeepsBodies(lib, body, partType, media.parameters, HeaderValue(headers, "content-transfer-encoding"),
        got);
    }
  }

  lemma {:induction false} PartsKeepBodies(lib: Library, parts: seq<string>, bound: nat, got: Bodies)
    requires forall p <- parts :: |p| < bound
    ensures Keeps(got, CollectParts(lib, parts, bound, got))
    decreases bound, 0, |parts|
  {
    hide CollectPart, Collect;
    if parts != [] {
      PartKeepsBodies(lib, parts[0], bound, got);
      PartsKeepBodies(lib, parts[1..], bound, CollectPart(lib, parts[0], bound, got));
    }
  }

  lemma {:induction false} MultipartKeepsBodies(lib: Library, body: string, contentType: string,
                                                parameters: map<string, string>, encoding: string, got: Bodies)
    requires HasKind(contentType, "multipart") && contentType != ""
    ensures Keeps(got, Collect(lib, body, contentType, parameters, encoding, got))
    decreases |body|, 1, 0
  {
    hide CollectParts, CollectPart, Segments, DecodeTransfer;
    var b := if "boundary" in parameters then parameters["boundary"] else "";
    if b != "" {
      PartsKeepBodies(lib, Segments(body, b), |body|, got);
    }
  }

  predicate Keeps(before: Bodies, after: Bodies) {
    (before.plain != "" ==> after.plain == before.plain) && (before.html != "" ==> after.html == before.html)
  }

  lemma {:induction false} AttachmentsKeepBodies(lib: Library, attachments: seq<Attachment>, got: Bodies)
    requires forall k :: 0 <= k < |attachments| ==> Base64.IsOctets(attachments[k].contents)
    ensures Keeps(got, AttachmentsEffect(lib, attachments, got))
    decreases attachments
  {
    if attachments != [] {
      AttachmentKeepsBodies(lib, attachments[0], got);
      AttachmentsKeepBodies(lib, attachments[1..], AttachmentEffect(lib, attachments[0], got));
    }
  }

  lemma AttachmentKeepsBodies(lib: Library, a: Attachment, got: Bodies)
    requires Base64.IsOctets(a.contents)
    ensures Keeps(got, AttachmentEffect(lib, a, got))
  {
    hide Collect, Armored, TrimSuffix, HasKind, Lower;
    var media := ParseMedia(lib, TrimSpace(lib, " " + AttachmentType(lib, a)));
    var partType := if media.name == "" then "text/plain" else media.name;
    if HasKind(partType, "multipart") {
      MultipartKeepsBodies(lib, TrimSuffix(Armored(a.contents)), partType, media.parameters, "base64", got);
    }
  }

  /** Each body that was set comes back exactly, whatever is attached. */
  lemma SetBodiesComeBack(lib: Library, msg: Message, alt: string, mixed: string)
    requires Faithful(lib) && HasOctets(msg) && CleanHeaders(lib, msg, mixed)
    requires IsBoundary("alternative", alt) && IsBoundary("mixed", mixed)
    ensures var read := ParseMessage(lib, MessageText(lib, msg, alt, mixed));
      && (!Blank(lib, msg.text) ==> read.plain == msg.text)
      && (!Blank(lib, msg.html) ==> read.html == msg.html)
  {
    hide ParseMessage, MessageText, AttachmentsEffect;
    RoundTrip(lib, msg, alt, mixed);
    AttachmentsKeepBodies(lib, msg.attachments, Written(lib, msg));
  }

  /** The attachment reads as a plain text with contents. */
  predicate PosesAsText(lib: Library, a: Attachment) {
    var media := ParseMedia(lib, TrimSpace(lib, " " + AttachmentType(lib, a)));
    (media.name == "" || (HasKind(media.name, "text") && Lower(media.name) == "text/plain")) && a.contents != ""
  }

  predicate IsMultipart(lib: Library, a: Attachment) {
    HasKind(ParseMedia(lib, TrimSpace(lib, " " + AttachmentType(lib, a))).name, "multipart")
  }

  /** The contents of the first attachment that poses as a plain text, or empty text. */
  function FirstPosing(lib: Library, attachments: seq<Attachment>): string {
    if attachments == [] then ""
    else if PosesAsText(lib, attachments[0]) then attachments[0].contents
    else FirstPosing(lib, attachments[1..])
  }

  /** The attachment reads as an HTML text with contents. */
  predicate PosesAsHtml(lib: Library, a: Attachment) {
    var media := ParseMedia(lib, TrimSpace(lib, " " + AttachmentType(lib, a)));
    HasKind(media.name, "text") && Lower(media.name) == "text/html" && a.contents != ""
  }

  /** The contents of the first attachment that poses as an HTML text, or empty text. */
  function FirstPosingHtml(lib: Library, attachments: seq<Attachment>): string {
    if attachments == [] then ""
    else if PosesAsHtml(lib, attachments[0]) then attachments[0].contents
    else FirstPosingHtml(lib, attachments[1..])
  }

  lemma FreePrefix(s: string, n: nat, d: string)
    requires Free(s, d) && n <= |s|
    ensures Free(s[..n], d)
  {
    forall k: nat ensures !Occurs(s[..n], d, k) {
      assert !Occurs(s, d, k);
      if k + |d| <= n {
        assert s[..n][k..k + |d|] == s[k..k + |d|];
      }
    }
  }

  /** Contents written as base64 hold no delimiter, whichever boundary the attachment's type names. */
  lemma ArmoredHasNoSegments(contents: string, b: string)
    requires Base64.IsOctets(contents)
    ensures Segments(TrimSuffix(Armored(contents)), b) == []
  {
    hide Armored;
    ArmoredIsFree(contents, Delimiter(b));
    FreePrefix(Armored(contents), |TrimSuffix(Armored(contents))|, Delimiter(b));
    assert TrimSuffix(Armored(contents)) == Armored(contents)[..|TrimSuffix(Armored(contents))|];
    SplitFree(TrimSuffix(Armored(contents)), Delimiter(b));
  }

  /** So an attachment that says it is a multipart adds nothing. */
  lemma MultipartAddsNothing(lib: Library, a: Attachment, got: Bodies)
    requires Base64.IsOctets(a.contents) && IsMultipart(lib, a)
    ensures AttachmentEffect(lib, a, got) == got && !PosesAsText(lib, a) && !PosesAsHtml(lib, a)
  {
    hide Armored, Segments, TrimSuffix, Lower;
    var media := ParseMedia(lib, TrimSpace(lib, " " + AttachmentType(lib, a)));
    var b := if "boundary" in media.parameters then media.parameters["boundary"] else "";
    ArmoredHasNoSegments(a.contents, b);
    KindsDiffer(media.name);
    var body := TrimSuffix(Armored(a.contents));
    assert CollectParts(lib, [], |body|, got) == got;
    assert Collect(lib, body, media.name, media.parameters, "base64", got) == got;
  }

  lemma KindsDiffer(name: string)
    requires HasKind(name, "multipart")
    ensures name != "" && !HasKind(name, "text")
  {
    assert name[0] == ("multipart" + "/")[0] == 'm' && ("text" + "/")[0] == 't';
  }

  lemma AttachmentAddsPlain(lib: Library, a: Attachment, got: Bodies)
    requires Base64.IsOctets(a.contents) && got.plain == ""
    ensures AttachmentEffect(lib, a, got).plain == if PosesAsText(lib, a) then a.contents else ""
  {
    hide Collect, Armored, TrimSuffix, Lower;
    if IsMultipart(lib, a) {
      MultipartAddsNothing(lib, a, got);
    } else {
      TextKinds();
      assert "multipart" + "/" != "";
    }
  }

  lemma AttachmentAddsHtml(lib: Library, a: Attachment, got: Bodies)
    requires Base64.IsOctets(a.contents) && got.html == ""
    ensures AttachmentEffect(lib, a, got).html == if PosesAsHtml(lib, a) then a.contents else ""
  {
    hide Collect, Armored, TrimSuffix, Lower;
    if IsMultipart(lib, a) {
      MultipartAddsNothing(lib, a, got);
    } else {
      TextKinds();
      assert "multipart" + "/" != "";
      assert |"text/plain"| != |"text/html"|;
      assert !HasKind("", "text") && |Lower("text/plain")| == 10;
    }
  }

  lemma {:induction false} AttachmentsAddPlain(lib: Library, attachments: seq<Attachment>, got: Bodies)
    requires forall k :: 0 <= k < |attachments| ==> Base64.IsOctets(attachments[k].contents)
    requires got.plain == ""
    ensures AttachmentsEffect(lib, attachments, got).plain == FirstPosing(lib, attachments)
    decreases attachments
  {
    hide AttachmentEffect, PosesAsText;
    if attachments != [] {
      AttachmentAddsPlain(lib, attachments[0], got);
      var after := AttachmentEffect(lib, attachments[0], got);
      if after.plain == "" {
        PosingHasContents(lib, attachments[0]);
        AttachmentsAddPlain(lib, attachments[1..], after);
      } else {
        AttachmentsKeepBodies(lib, attachments[1..], after);
      }
    }
  }

  lemma {:induction false} AttachmentsAddHtml(lib: Library, attachments: seq<Attachment>, got: Bodies)
    requires forall k :: 0 <= k < |attachments| ==> Base64.IsOctets(attachments[k].contents)
    requires got.html == ""
    ensures AttachmentsEffect(lib, attachments, got).html == FirstPosingHtml(lib, attachments)
    decreases attachments
  {
    hide AttachmentEffect, PosesAsHtml;
    if attachments != [] {
      AttachmentAddsHtml(lib, attachments[0], got);
      var after := AttachmentEffect(lib, attachments[0], got);
      if after.html == "" {
        PosingHasContents(lib, attachments[0]);
        AttachmentsAddHtml(lib, attachments[1..], after);
      } else {
        AttachmentsKeepBodies(lib, attachments[1..], after);
      }
    }
  }

  lemma PosingHasContents(lib: Library, a: Attachment)
    ensures PosesAsText(lib, a) || PosesAsHtml(lib, a) ==> a.contents != ""
  {
  }

  /**
   A plain text that was not set reads as the first attachment that poses as a
   text, and as the trimmed HTML when there is none.
   */
  lemma UnsetTextReadsAs(lib: Library, msg: Message, alt: string, mixed: string)
    requires Faithful(lib) && HasOctets(msg) && CleanHeaders(lib, msg, mixed)
    requires IsBoundary("alternative", alt) && IsBoundary("mixed", mixed)
    requires Blank(lib, msg.text)
    ensures var read := ParseMessage(lib, MessageText(lib, msg, alt, mixed));
            var posing := FirstPosing(lib, msg.attachments);
      read.plain == if posing == "" then TrimSpace(lib, read.html) else posing
  {
    hide ParseMessage, MessageText, AttachmentsEffect, FirstPosing;
    RoundTrip(lib, msg, alt, mixed);
    AttachmentsAddPlain(lib, msg.attachments, Written(lib, msg));
  }

  /**
   An HTML that was not set reads as the first attachment that poses as one,
   and as empty exactly when there is none. White space set without a text,
   which the sending node refuses, stays as it is.
   */
  lemma UnsetHtmlReadsAs(lib: Library, msg: Message, alt: string, mixed: string)
    requires Faithful(lib) && HasOctets(msg) && CleanHeaders(lib, msg, mixed)
    requires IsBoundary("alternative", alt) && IsBoundary("mixed", mixed)
    requires Blank(lib, msg.html)
    ensures ParseMessage(lib, MessageText(lib, msg, alt, mixed)).html ==
      if Blank(lib, msg.text) && msg.html != "" then msg.html else FirstPosingHtml(lib, msg.attachments)
  {
    hide ParseMessage, MessageText, AttachmentsEffect, FirstPosingHtml;
    RoundTrip(lib, msg, alt, mixed);
    if Written(lib, msg).html == "" {
      AttachmentsAddHtml(lib, msg.attachments, Written(lib, msg));
    } else {
      AttachmentsKeepBodies(lib, msg.attachments, Written(lib, msg));
    }
  }

  // ----- A message of each kind that fails ----------------------------------

  const QUOTED_NAME := "\"n\""

  /** A message with one body and one attachment called n. */
  function Sample(text: string, html: string, mediaType: string, contents: string): Message {
    Message("a@b.c", ["d@e.f"], [], "", "s", "d", "<m@b.c>", text, html, [SampleAttachment(mediaType, contents)])
  }

  function SampleAttachment(mediaType: string, contents: string): Attachment {
    Attachment("", "n", mediaType, contents, "attachment")
  }

  /** What the library makes of the sample's own strings. */
  predicate KnowsSample(lib: Library, mediaType: string) {
    && lib.encodeSubject("s") == "s" && lib.quote("n") == QUOTED_NAME
    && ParseMedia(lib, mediaType + "; name=" + QUOTED_NAME).name == mediaType
  }

  /** A value that can stand in a header line. */
  predicate Plain(value: string) {
    NoDouble(value) && NoBreak(value) && value != "" && '!' <= value[0] <= '~' && '!' <= value[|value| - 1] <= '~'
    && value[|value| - 1] != '-'
  }

  lemma PlainJoin(a: string, b: string, c: string)
    requires Plain(a) && NoDouble(b) && NoBreak(b) && b != "" && b[|b| - 1] != '-' && Plain(c)
    ensures Plain(a + b + c)
  {
    NoDoubleJoin(a, b);
    NoDoubleJoin(a + b, c);
  }

  lemma PlainLine(key: string, value: string, mixed: string)
    requires IsBoundary("mixed", mixed) && Plain(key) && Plain(value)
    ensures Free(HeaderLine(Header(key, value)), Delimiter(mixed)) && NoBreak(value)
  {
    NoDoubleJoin(key, ": ");
    NoDoubleJoin(key + ": ", value);
    NoDoubleIsFree(HeaderLine(Header(key, value)));
    DelimiterForm("mixed", mixed);
    assert SIX <= Delimiter(mixed);
    FreeOfSix(HeaderLine(Header(key, value)), Delimiter(mixed));
  }

  lemma SampleHeaders(lib: Library, mediaType: string, contents: string)
    requires KnowsSample(lib, mediaType)
    ensures AttachmentHeaders(lib, SampleAttachment(mediaType, contents)) ==
      [Header("Content-Type", mediaType + "; name=" + QUOTED_NAME), TRANSFER,
       Header("Content-Disposition", "attachment" + "; filename=" + QUOTED_NAME)]
    ensures AttachmentType(lib, SampleAttachment(mediaType, contents)) == mediaType + "; name=" + QUOTED_NAME
  {
  }

  lemma SampleKeys()
    ensures Plain("Content-Type") && Plain("Content-Transfer-Encoding") && Plain("Content-Disposition")
  {
  }

  lemma SampleValues(mediaType: string)
    requires Plain(mediaType)
    ensures Plain(mediaType + "; name=" + QUOTED_NAME) && Plain("attachment" + "; filename=" + QUOTED_NAME) &&
      Plain("base64")
  {
    PlainJoin(mediaType, "; name=", QUOTED_NAME);
    PlainJoin("attachment", "; filename=", QUOTED_NAME);
  }

  lemma SampleIsClean(lib: Library, text: string, html: string, mediaType: string, contents: string, mixed: string)
    requires Plain(mediaType) && KnowsSample(lib, mediaType) && IsBoundary("mixed", mixed) && Base64.IsOctets(contents)
    ensures CleanHeaders(lib, Sample(text, html, mediaType, contents), mixed)
  {
    hide Free, IsBoundary, Delimiter, HeaderLine, AttachmentHeaders, Plain, KnowsSample, TopHeaders;
    SampleHeaders(lib, mediaType, contents);
    SampleKeys();
    SampleValues(mediaType);
    PlainLine("Content-Type", mediaType + "; name=" + QUOTED_NAME, mixed);
    PlainLine("Content-Transfer-Encoding", "base64", mixed);
    PlainLine("Content-Disposition", "attachment" + "; filename=" + QUOTED_NAME, mixed);
    SampleTop(lib, text, html, mediaType, contents);
  }

  lemma SampleTop(lib: Library, text: string, html: string, mediaType: string, contents: string)
    requires KnowsSample(lib, mediaType)
    ensures Unbroken(TopHeaders(lib, Sample(text, html, mediaType, contents)))
  {
    var msg := Sample(text, html, mediaType, contents);
    assert Joined(["d@e.f"]) == "d@e.f";
    assert TopHeaders(lib, msg) == [Header("From", "a@b.c"), Header("To", "d@e.f"), Header("Subject", "s"),
      Header("Date", "d"), Header("Message-ID", "<m@b.c>"), Header("MIME-Version", "1.0")];
  }

  /** The sample's attachment is read as the kind it says it is. */
  lemma SampleMedia(lib: Library, mediaType: string, contents: string)
    requires Faithful(lib) && Plain(mediaType) && KnowsSample(lib, mediaType)
    ensures ParseMedia(lib, TrimSpace(lib, " " + AttachmentType(lib, SampleAttachment(mediaType, contents)))).name ==
      mediaType
  {
    hide Plain;
    SampleHeaders(lib, mediaType, contents);
    SampleValues(mediaType);
    assert Inked(mediaType + "; name=" + QUOTED_NAME) by {
      PlainIsInked(mediaType + "; name=" + QUOTED_NAME);
    }
  }

  lemma PlainIsInked(value: string)
    requires Plain(value)
    ensures Inked(value)
  {
  }

  lemma SampleTypes()
    ensures Plain("text/plain") && Plain("text/html")
  {
    NoDoubleJoin("text/", "plain");
    NoDoubleJoin("text/", "html");
    assert "text/plain" == "text/" + "plain" && "text/html" == "text/" + "html";
  }

  lemma SamplePoses(lib: Library, mediaType: string, contents: string)
    requires Faithful(lib) && (mediaType == "text/plain" || mediaType == "text/html") && KnowsSample(lib, mediaType)
    requires contents != ""
    ensures var attachments := [SampleAttachment(mediaType, contents)];
      && (mediaType == "text/plain" ==> FirstPosing(lib, attachments) == contents)
      && (mediaType == "text/html" ==> FirstPosingHtml(lib, attachments) == contents)
  {
    hide Plain, KnowsSample, AttachmentType, Lower;
    SampleTypes();
    SampleMedia(lib, mediaType, contents);
    TextKinds();
  }

  /** An HTML mail with a plain text attached: what is read as its text is the attachment. */
  lemma AttachedTextIsRead(lib: Library, html: string, contents: string, alt: string, mixed: string)
    requires Faithful(lib) && IsBoundary("alternative", alt) && IsBoundary("mixed", mixed) &&
      KnowsSample(lib, "text/plain")
    requires Base64.IsOctets(html) && Base64.IsOctets(contents) && !Blank(lib, html) && contents != ""
    ensures var msg := Sample("", html, "text/plain", contents);
      ParseMessage(lib, MessageText(lib, msg, alt, mixed)) == Bodies(contents, html)
  {
    hide ParseMessage, MessageText, CleanHeaders, IsBoundary, Plain, KnowsSample, FirstPosing;
    var msg := Sample("", html, "text/plain", contents);
    SampleTypes();
    SampleIsClean(lib, "", html, "text/plain", contents, mixed);
    SamplePoses(lib, "text/plain", contents);
    SetBodiesComeBack(lib, msg, alt, mixed);
    UnsetTextReadsAs(lib, msg, alt, mixed);
  }

  /** A text mail with an HTML text attached: it reads as having an HTML body nobody set. */
  lemma AttachedHtmlIsRead(lib: Library, text: string, contents: string, alt: string, mixed: string)
    requires Faithful(lib) && IsBoundary("alternative", alt) && IsBoundary("mixed", mixed) &&
      KnowsSample(lib, "text/html")
    requires Base64.IsOctets(text) && Base64.IsOctets(contents) && !Blank(lib, text) && contents != ""
    ensures var msg := Sample(text, "", "text/html", contents);
      ParseMessage(lib, MessageText(lib, msg, alt, mixed)) == Bodies(text, contents)
  {
    hide ParseMessage, MessageText, CleanHeaders, IsBoundary, Plain, KnowsSample, FirstPosingHtml;
    var msg := Sample(text, "", "text/html", contents);
    SampleTypes();
    SampleIsClean(lib, text, "", "text/html", contents, mixed);
    SamplePoses(lib, "text/html", contents);
    SetBodiesComeBack(lib, msg, alt, mixed);
    UnsetHtmlReadsAs(lib, msg, alt, mixed);
  }

  /**
   Two such messages: <b>x</b> with hi attached as text, and hi with <b>x</b>
   attached as HTML, read back as the same two bodies.
   */
  lemma TwoMessagesThatFail(lib: Library, alt: string, mixed: string)
    requires Faithful(lib) && IsBoundary("alternative", alt) && IsBoundary("mixed", mixed)
    requires KnowsSample(lib, "text/plain") && KnowsSample(lib, "text/html")
    ensures !Blank(lib, "hi") && !Blank(lib, "<b>x</b>") && Base64.IsOctets("hi") && Base64.IsOctets("<b>x</b>")
    ensures ParseMessage(lib, MessageText(lib, Sample("", "<b>x</b>", "text/plain", "hi"), alt, mixed)) ==
      Bodies("hi", "<b>x</b>")
    ensures ParseMessage(lib, MessageText(lib, Sample("hi", "", "text/html", "<b>x</b>"), alt, mixed)) ==
      Bodies("hi", "<b>x</b>")
  {
    hide ParseMessage, MessageText, IsBoundary, KnowsSample, Sample;
    assert Inked("hi") && Inked("<b>x</b>");
    AttachedTextIsRead(lib, "<b>x</b>", "hi", alt, mixed);
    AttachedHtmlIsRead(lib, "hi", "<b>x</b>", alt, mixed);
  }
}
