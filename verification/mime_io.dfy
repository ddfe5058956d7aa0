/** The writer and the reader as they run: one growing buffer, one record filled in place. */
module MimeIO {
  import opened MimeText
  import opened Mime
  import Base64

  /** The buffer a message is written to. */
  class Buffer {
    var data: string

    constructor ()
      ensures data == ""
    {
      data := "";
    }

    method WriteLine(line: string)
      modifies this
      ensures data == old(data) + line + CRLF
    {
      data := data + line + CRLF;
    }

    method WriteHeader(h: Header)
      modifies this
      ensures data == old(data) + HeaderLine(h) + CRLF
    {
      WriteLine(HeaderLine(h));
    }

    method WriteBase64(contents: string)
      requires Base64.IsOctets(contents)
      modifies this
      ensures data == old(data) + Armored(contents)
    {
      var encoded := Base64.Encode(contents);
      while |encoded| > 76
        invariant data + Wrapped(encoded) == old(data) + Armored(contents)
        decreases |encoded|
      {
        WriteLine(encoded[..76]);
        encoded := encoded[76..];
      }
      WriteLine(encoded);
    }

    method WriteText(subtype: string, contents: string)
      requires Base64.IsOctets(contents)
      modifies this
      ensures data == old(data) + Render(TextEntity(subtype, contents))
    {
      hide TextType, Armored, HeaderLine, Lines, Render, Base64.IsOctets;
      ghost var before := data;
      WriteHeader(Header("Content-Type", TextType(subtype)));
      WriteHeader(TRANSFER);
      WriteLine("");
      WriteBase64(contents);
      EntityOfTwo(before, Header("Content-Type", TextType(subtype)), TRANSFER, Armored(contents));
    }

    method WriteBody(lib: Library, msg: Message, alt: string)
      requires HasOctets(msg)
      modifies this
      ensures data == old(data) + Render(BodyEntity(lib, msg, alt))
    {
      hide TextEntity, HeaderLine, Render, Delimited, Delimiter, MultipartType, Base64.IsOctets;
      if Blank(lib, msg.text) {
        WriteText("html", msg.html);
      } else if Blank(lib, msg.html) {
        WriteText("plain", msg.text);
      } else {
        ghost var before := data;
        var h := Header("Content-Type", MultipartType("alternative", alt));
        WriteHeader(h);
        WriteLine("");
        WriteLine(Delimiter(alt));
        WriteText("plain", msg.text);
        WriteLine(Delimiter(alt));
        WriteText("html", msg.html);
        WriteLine(Delimiter(alt) + "--");
        EntityOfAlternatives(before, h, alt, Render(TextEntity("plain", msg.text)),
          Render(TextEntity("html", msg.html)));
      }
    }

    method WriteAttachment(lib: Library, a: Attachment)
      requires Base64.IsOctets(a.contents)
      modifies this
      ensures data == old(data) + Render(AttachmentEntity(lib, a))
    {
      hide Armored, Render, Base64.IsOctets, AttachmentHeaders;
      WriteHeaders(AttachmentHeaders(lib, a));
      ghost var written := data;
      WriteLine("");
      WriteBase64(a.contents);
      EndsEntity(old(data), AttachmentHeaders(lib, a), Armored(a.contents));
    }

    method WriteHeaders(hs: seq<Header>)
      modifies this
      ensures data == old(data) + Lines(hs)
    {
      var k := 0;
      while k < |hs|
        invariant 0 <= k <= |hs| && data == old(data) + Lines(hs[..k])
      {
        WriteHeader(hs[k]);
        LinesGrow(hs, k);
        k := k + 1;
      }
      assert hs[..|hs|] == hs;
    }
  }

  method BuildEmailMessage(lib: Library, msg: Message, altToken: string, mixedToken: string) returns (raw: string)
    requires HasOctets(msg)
    ensures raw == MessageText(lib, msg, BoundaryOf("alt", altToken), BoundaryOf("mixed", mixedToken))
  {
    hide BodyEntity, Render, Delimited, Delimiter, MultipartType, TopHeaders, AttachmentEntity, Lines, HeaderLine;
    var out := new Buffer();
    var alt, mixed := BoundaryOf("alt", altToken), BoundaryOf("mixed", mixedToken);
    var top := TopHeaders(lib, msg);
    out.WriteHeaders(top);
    if msg.attachments == [] {
      out.WriteBody(lib, msg, alt);
      TopOfEntity(top, BodyEntity(lib, msg, alt));
      return out.data;
    }
    var h := Header("Content-Type", MultipartType("mixed", mixed));
    out.WriteHeader(h);
    out.WriteLine("");
    ghost var before, attached := out.data, AttachmentParts(lib, msg.attachments);
    ghost var parts := [Render(BodyEntity(lib, msg, alt))] + attached;
    TopOfMultipart(top, h, Delimited(mixed, parts));
    out.WriteLine(Delimiter(mixed));
    out.WriteBody(lib, msg, alt);
    DelimitedStep(before, mixed, Render(BodyEntity(lib, msg, alt)), attached);
    assert attached[0..] == attached;
    var k := 0;
    while k < |msg.attachments|
      invariant 0 <= k <= |msg.attachments|
      invariant out.data + Delimited(mixed, attached[k..]) == before + Delimited(mixed, parts)
    {
      ghost var d := out.data;
      assert attached[k..] == [attached[k]] + attached[k + 1..];
      out.WriteLine(Delimiter(mixed));
      out.WriteAttachment(lib, msg.attachments[k]);
      DelimitedStep(d, mixed, attached[k], attached[k + 1..]);
      k := k + 1;
    }
    assert attached[k..] == [];
    DelimitedEnds(out.data, mixed);
    out.WriteLine(Delimiter(mixed) + "--");
    return out.data;
  }

  // ----- Shapes of what was written ---------------------------------------

  lemma {:induction false} LinesJoin(a: seq<Header>, b: seq<Header>)
    ensures Lines(a + b) == Lines(a) + Lines(b)
    decreases a
  {
    if a == [] {
      assert a + b == b;
    } else {
      hide HeaderLine;
      LinesJoin(a[1..], b);
      assert (a + b)[1..] == a[1..] + b && (a + b)[0] == a[0];
      Regroup(HeaderLine(a[0]) + CRLF, Lines(a[1..]), Lines(b));
    }
  }

  lemma Regroup(a: string, b: string, c: string)
    ensures a + (b + c) == (a + b) + c
  {
  }

  lemma LinesOfOne(h: Header)
    ensures Lines([h]) == HeaderLine(h) + CRLF
  {
    assert [h][1..] == [] && Lines([]) == "";
  }

  lemma LinesGrow(hs: seq<Header>, k: nat)
    requires k < |hs|
    ensures Lines(hs[..k + 1]) == Lines(hs[..k]) + (HeaderLine(hs[k]) + CRLF)
  {
    assert hs[..k + 1] == hs[..k] + [hs[k]];
    LinesJoin(hs[..k], [hs[k]]);
    LinesOfOne(hs[k]);
  }

  lemma EndsEntity(before: string, hs: seq<Header>, body: string)
    ensures before + Lines(hs) + "" + CRLF + body == before + Render(Entity(hs, body))
  {
  }

  lemma EntityOfTwo(before: string, g: Header, h: Header, body: string)
    ensures before + HeaderLine(g) + CRLF + HeaderLine(h) + CRLF + "" + CRLF + body ==
      before + Render(Entity([g, h], body))
  {
    hide HeaderLine;
    assert [g, h] == [g] + [h];
    LinesJoin([g], [h]);
    LinesOfOne(g);
    LinesOfOne(h);
  }

  lemma EntityOfAlternatives(before: string, h: Header, b: string, p: string, q: string)
    ensures before + HeaderLine(h) + CRLF + "" + CRLF + Delimiter(b) + CRLF + p + Delimiter(b) + CRLF + q
              + (Delimiter(b) + "--") + CRLF
         == before + Render(Entity([h], Delimited(b, [p, q])))
  {
    hide HeaderLine, Delimiter;
    LinesOfOne(h);
    DelimitedTwo(b, p, q);
  }

  lemma TopOfEntity(top: seq<Header>, e: Entity)
    ensures "" + Lines(top) + Render(e) == Render(Entity(top + e.headers, e.body))
  {
    hide Lines;
    LinesJoin(top, e.headers);
    Regroup(Lines(top), Lines(e.headers), CRLF + e.body);
    assert "" + Lines(top) == Lines(top);
    assert Render(e) == Lines(e.headers) + (CRLF + e.body);
  }

  lemma TopOfMultipart(top: seq<Header>, h: Header, body: string)
    ensures "" + Lines(top) + HeaderLine(h) + CRLF + "" + CRLF + body == Render(Entity(top + [h], body))
  {
    hide HeaderLine, Lines;
    LinesJoin(top, [h]);
    LinesOfOne(h);
    assert "" + Lines(top) == Lines(top);
    Regroup(Lines(top), HeaderLine(h), CRLF);
    assert "" + CRLF == CRLF;
  }

  lemma DelimitedStep(before: string, b: string, part: string, rest: seq<string>)
    ensures before + Delimiter(b) + CRLF + part + Delimited(b, rest) == before + Delimited(b, [part] + rest)
  {
    hide Delimiter;
    assert ([part] + rest)[1..] == rest && ([part] + rest)[0] == part;
  }

  lemma DelimitedEnds(before: string, b: string)
    ensures before + (Delimiter(b) + "--") + CRLF == before + Delimited(b, [])
  {
    hide Delimiter;
  }

  lemma DelimitedTwo(b: string, p: string, q: string)
    ensures Delimited(b, [p, q])
         == Delimiter(b) + CRLF + p + (Delimiter(b) + CRLF + q + (Delimiter(b) + "--" + CRLF))
  {
    hide Delimiter;
    assert [p, q][1..] == [q] && [q][1..] == [];
    assert Delimited(b, []) == Delimiter(b) + "--" + CRLF;
    assert Delimited(b, [q]) == Delimiter(b) + CRLF + q + Delimited(b, []);
  }

  // ----- Reading ----------------------------------------------------------

  method ParseEmailHeaders(lib: Library, block: string) returns (headers: seq<Header>)
    ensures headers == ParseHeaders(lib, block)
  {
    hide SplitOn, DropReturns, IndexFrom;
    headers := [];
    var lines := SplitOn(block, "\n");
    assert lines[0..] == lines;
    var k := 0;
    while k < |lines|
      invariant 0 <= k <= |lines| && AddLines(lib, headers, lines[k..]) == ParseHeaders(lib, block)
    {
      TakesNext(lib, headers, lines, k);
      var line := DropReturns(lines[k]);
      if line == "" {
      } else if line[0] == ' ' || line[0] == '\t' {
        if headers != [] {
          var last := headers[|headers| - 1];
          headers := headers[|headers| - 1 := Header(last.key, last.value + " " + TrimSpace(lib, line))];
        }
      } else {
        var colon := IndexFrom(line, ":", 0);
        if colon.Some? {
          headers := headers + [Header(TrimSpace(lib, line[..colon.value]), TrimSpace(lib, line[colon.value + 1..]))];
        }
      }
      k := k + 1;
    }
  }

  lemma TakesNext(lib: Library, got: seq<Header>, lines: seq<string>, k: nat)
    requires k < |lines|
    ensures AddLines(lib, got, lines[k..]) == AddLines(lib, AddLine(lib, got, lines[k]), lines[k + 1..])
  {
    hide AddLine;
    assert lines[k..][1..] == lines[k + 1..];
  }

  /** The segments of the pieces from k on. */
  ghost function SegmentsFrom(pieces: seq<string>, k: nat, bound: nat): seq<string>
    requires k <= |pieces| && forall i :: 1 <= i < |pieces| ==> |pieces[i]| < bound
    requires k >= 1
  {
    TakeSegments(pieces[k..], bound)
  }

  method SplitMultipart(body: string, b: string) returns (segments: seq<string>)
    ensures segments == Segments(body, b)
  {
    hide SplitOn, TrimPrefix, TrimSuffix, Delimiter, TakeSegments, SegmentsFrom;
    segments := [];
    var split := SplitOn(body, Delimiter(b));
    SegmentsAreFromOne(body, b);
    var k := 1;
    while k < |split|
      invariant 1 <= k <= |split|
      invariant segments + SegmentsFrom(split, k, |body|) == Segments(body, b)
    {
      TakesSegment(split, k, |body|);
      var segment := TrimPrefix(split[k]);
      if "--" <= segment {
        return;
      }
      segments := segments + [TrimSuffix(segment)];
      k := k + 1;
    }
    NoSegments(split, |body|);
  }

  lemma SegmentsAreFromOne(body: string, b: string)
    ensures var split := SplitOn(body, Delimiter(b));
      && (forall i :: 1 <= i < |split| ==> |split[i]| < |body|)
      && Segments(body, b) == SegmentsFrom(split, 1, |body|)
  {
    hide SplitOn, Delimiter, TakeSegments;
    var split := SplitOn(body, Delimiter(b));
    forall i | 1 <= i < |split| ensures |split[i]| < |body| {
      assert split[i] in split;
    }
  }

  lemma TakesSegment(pieces: seq<string>, k: nat, bound: nat)
    requires 1 <= k < |pieces| && forall i :: 1 <= i < |pieces| ==> |pieces[i]| < bound
    ensures SegmentsFrom(pieces, k, bound) ==
            var segment := TrimPrefix(pieces[k]);
            if "--" <= segment then [] else [TrimSuffix(segment)] + SegmentsFrom(pieces, k + 1, bound)
  {
    hide TrimPrefix, TrimSuffix;
    assert pieces[k..][1..] == pieces[k + 1..];
  }

  lemma NoSegments(pieces: seq<string>, bound: nat)
    requires |pieces| >= 1 && forall i :: 1 <= i < |pieces| ==> |pieces[i]| < bound
    ensures SegmentsFrom(pieces, |pieces|, bound) == []
  {
    assert pieces[|pieces|..] == [];
  }

  /** The record collectBodies fills. */
  class Parsed {
    var textPlain: string
    var textHtml: string

    constructor ()
      ensures textPlain == "" && textHtml == ""
    {
      textPlain, textHtml := "", "";
    }

    ghost function Got(): Bodies
      reads this
    {
      Bodies(textPlain, textHtml)
    }

    /** One turn of collectBodies over the parts of a multipart body. */
    method CollectBodiesOf(lib: Library, part: string, ghost bound: nat)
      requires |part| < bound
      modifies this
      ensures Got() == CollectPart(lib, part, bound, old(Got()))
      decreases bound, 0
    {
      hide Collect, SplitHeaders, HeaderValue, DecodeTransfer, Lower, HasKind;
      var (headers, body) := SplitHeaders(lib, part);
      var media := ParseMedia(lib, HeaderValue(headers, "content-type"));
      var partType := if media.name == "" then "text/plain" else media.name;
      var encoding := HeaderValue(headers, "content-transfer-encoding");
      if HasKind(partType, "multipart") {
        CollectBodies(lib, body, partType, media.parameters, encoding);
      } else if HasKind(partType, "text") {
        var decoded := DecodeTransfer(lib, body, encoding);
        if Lower(partType) == "text/plain" {
          if textPlain == "" {
            textPlain := decoded;
          }
        } else if Lower(partType) == "text/html" {
          if textHtml == "" {
            textHtml := decoded;
          }
        }
      }
    }

    method CollectBodies(lib: Library, body: string, contentType: string, parameters: map<string, string>,
                         encoding: string)
      modifies this
      ensures Got() == Collect(lib, body, contentType, parameters, encoding, old(Got()))
      decreases |body|, 1
    {
      hide CollectPart, Segments, DecodeTransfer;
      var kind := if contentType == "" then "text/plain" else contentType;
      if HasKind(kind, "multipart") {
        var b := if "boundary" in parameters then parameters["boundary"] else "";
        if b == "" {
          return;
        }
        var parts := SplitMultipart(body, b);
        var k := 0;
        while k < |parts|
          invariant 0 <= k <= |parts| && forall p <- parts[k..] :: |p| < |body|
          invariant CollectParts(lib, parts[k..], |body|, Got())
                 == Collect(lib, body, contentType, parameters, encoding, old(Got()))
        {
          assert parts[k] in parts[k..] && parts[k..][1..] == parts[k + 1..];
          CollectBodiesOf(lib, parts[k], |body|);
          k := k + 1;
        }
        return;
      }
      if HasKind(kind, "text") {
        var decoded := DecodeTransfer(lib, body, encoding);
        if Lower(kind) == "text/plain" {
          textPlain := decoded;
        } else if Lower(kind) == "text/html" {
          textHtml := decoded;
        }
      }
    }
  }

  method ParseEmailMessage(lib: Library, raw: string) returns (bodies: Bodies)
    ensures bodies == ParseMessage(lib, raw)
  {
    hide Collect, SplitHeaders, HeaderValue;
    var (headers, body) := SplitHeaders(lib, raw);
    var parsed := new Parsed();
    var media := ParseMedia(lib, HeaderValue(headers, "content-type"));
    parsed.CollectBodies(lib, body, media.name, media.parameters, HeaderValue(headers, "content-transfer-encoding"));
    if parsed.textPlain == "" {
      parsed.textPlain := TrimSpace(lib, parsed.textHtml);
    }
    bodies := Bodies(parsed.textPlain, parsed.textHtml);
  }
}
