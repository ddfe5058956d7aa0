/**
 Reading mail that others wrote (nodes/email.go): bodies in any transfer
 encoding, and multiparts in multiparts with text before and after.
 */
module MimeReader {
  import opened Wrappers
  import opened MimeText
  import opened Mime
  import opened MimeHeaders
  import Base64

  // ----- A message as it comes --------------------------------------------

  /**
   A leaf has a body in some encoding, and what it says once it is decoded; its
   headers end their lines with or without a carriage return. A multipart has
   its parts between delimiters.
   */
  datatype Mail =
    | Leaf(fields: seq<Field>, cr: string, body: string, text: string)
    | Multi(fields: seq<Field>, boundary: string, preamble: string, parts: seq<Mail>, epilogue: string)

  /** The octets of a message. */
  function Raw(m: Mail): string
    decreases m, 1, 0
  {
    match m
    case Leaf(fields, cr, body, _) => Head(fields, cr) + body
    case Multi(fields, b, preamble, parts, _) => Head(fields, "\r") + (preamble + Delimiter(b) + After(m, 0))
  }

  function Head(fields: seq<Field>, cr: string): string { Block(AllLines(fields), cr) + BlankLine(cr) }

  /** What follows the delimiter in front of part k. */
  function After(m: Mail, k: nat): string
    requires m.Multi? && k <= |m.parts|
    decreases m, 0, |m.parts| - k
  {
    if k == |m.parts| then "--" + m.epilogue
    else CRLF + Raw(m.parts[k]) + CRLF + Delimiter(m.boundary) + After(m, k + 1)
  }

  function MediaOf(lib: Library, fields: seq<Field>): Media {
    ParseMedia(lib, HeaderValue(Readings(lib, fields), "content-type"))
  }

  /** A message without a type that can be read is plain text. */
  function TypeOf(lib: Library, fields: seq<Field>): string {
    if MediaOf(lib, fields).name == "" then "text/plain" else MediaOf(lib, fields).name
  }

  function EncodingOf(lib: Library, fields: seq<Field>): string {
    HeaderValue(Readings(lib, fields), "content-transfer-encoding")
  }

  /**
   What a body says in an encoding: quoted-printable as the library decodes
   it, base64 without its line space, and the octets themselves in any other
   encoding or when the decoding fails.
   */
  predicate Says(lib: Library, encoding: string, body: string, text: string) {
    var scheme := Lower(TrimSpace(lib, encoding));
    if scheme == "quoted-printable" then
      lib.quotedPrintable(body) == Some(text) || (lib.quotedPrintable(body) == None && text == body)
    else if scheme == "base64" then
      var digits := WithoutLineSpace(body);
      Base64.Decode(digits) == Some(text) || (Base64.Decode(digits) == None && text == body)
    else text == body
  }

  /** The delimiter stands after the piece, and nowhere before. */
  ghost predicate Clear(piece: string, d: string) { forall k: nat :: k < |piece| ==> !Occurs(piece + d, d, k) }

  /** A message as it may come: the delimiters stand only where its parts are divided. */
  ghost predicate Comes(lib: Library, m: Mail)
    decreases m
  {
    && m.fields != [] && AllSound(m.fields)
    && match m
       case Leaf(fields, cr, body, text) =>
         && IsEnding(cr) && (cr == "" ==> Free(body, "\r\n\r\n"))
         && !("multipart/" <= TypeOf(lib, fields)) && Says(lib, EncodingOf(lib, fields), body, text)
       case Multi(fields, b, preamble, parts, epilogue) =>
         && "multipart/" <= TypeOf(lib, fields) && b != ""
         && "boundary" in MediaOf(lib, fields).parameters && MediaOf(lib, fields).parameters["boundary"] == b
         && Clear(preamble, Delimiter(b)) && Free("--" + epilogue, Delimiter(b))
         && forall k :: 0 <= k < |parts| ==> Comes(lib, parts[k]) && Divides(parts[k], Delimiter(b))
  }

  ghost predicate Divides(part: Mail, d: string) { Clear(CRLF + Raw(part) + CRLF, d) && !("--" <= Raw(part)) }

  // ----- What it says -----------------------------------------------------

  /** The texts of a message in the order they stand, each with its type. */
  function Texts(lib: Library, m: Mail): seq<(string, string)>
    decreases m, 1, 0
  {
    match m
    case Leaf(fields, _, _, text) => if "text/" <= TypeOf(lib, fields) then [(TypeOf(lib, fields), text)] else []
    case Multi(_, _, _, parts, _) => TextsFrom(lib, m, 0)
  }

  function TextsFrom(lib: Library, m: Mail, k: nat): seq<(string, string)>
    requires m.Multi? && k <= |m.parts|
    decreases m, 0, |m.parts| - k
  {
    if k == |m.parts| then [] else Texts(lib, m.parts[k]) + TextsFrom(lib, m, k + 1)
  }

  /** The first of a type that says something. */
  function FirstOf(texts: seq<(string, string)>, kind: string): string {
    if texts == [] then ""
    else if Lower(texts[0].0) == kind && texts[0].1 != "" then texts[0].1
    else FirstOf(texts[1..], kind)
  }

  function OfferAll(got: Bodies, texts: seq<(string, string)>): Bodies
    decreases |texts|
  {
    if texts == [] then got else OfferAll(Offer(got, texts[0].0, texts[0].1), texts[1..])
  }

  lemma {:induction false} OfferedFirst(got: Bodies, texts: seq<(string, string)>)
    ensures OfferAll(got, texts) == Bodies(
      if got.plain != "" then got.plain else FirstOf(texts, "text/plain"),
      if got.html != "" then got.html else FirstOf(texts, "text/html"))
    decreases |texts|
  {
    hide Lower;
    assert |"text/plain"| != |"text/html"|;
    if texts != [] {
      OfferedFirst(Offer(got, texts[0].0, texts[0].1), texts[1..]);
    }
  }

  lemma {:induction false} OfferedInTurn(got: Bodies, a: seq<(string, string)>, b: seq<(string, string)>)
    ensures OfferAll(got, a + b) == OfferAll(OfferAll(got, a), b)
    decreases |a|
  {
    hide Offer;
    if a == [] {
      assert a + b == b;
    } else {
      assert (a + b)[1..] == a[1..] + b;
      OfferedInTurn(Offer(got, a[0].0, a[0].1), a[1..], b);
    }
  }

  // ----- Dividing a multipart ---------------------------------------------

  lemma ClearSplits(piece: string, d: string, rest: string)
    requires d != "" && Clear(piece, d)
    ensures SplitOn(piece + d + rest, d) == [piece] + SplitOn(rest, d)
  {
    var s := piece + d + rest;
    forall k: nat | k < |piece| ensures !Occurs(s, d, k) {
      assert s[k..k + |d|] == (piece + d)[k..k + |d|];
      assert !Occurs(piece + d, d, k);
    }
    SplitAtFirst(piece, d, rest);
  }

  function Pieces(m: Mail, k: nat): seq<string>
    requires m.Multi? && k <= |m.parts|
    decreases |m.parts| - k
  {
    if k == |m.parts| then ["--" + m.epilogue] else [CRLF + Raw(m.parts[k]) + CRLF] + Pieces(m, k + 1)
  }

  function Raws(m: Mail, k: nat): seq<string>
    requires m.Multi? && k <= |m.parts|
    decreases |m.parts| - k
  {
    if k == |m.parts| then [] else [Raw(m.parts[k])] + Raws(m, k + 1)
  }

  lemma Divided(lib: Library, m: Mail, k: nat)
    requires m.Multi? && Comes(lib, m)
    ensures Delimiter(m.boundary) != "" && Free("--" + m.epilogue, Delimiter(m.boundary))
    ensures k < |m.parts| ==> Comes(lib, m.parts[k]) && Divides(m.parts[k], Delimiter(m.boundary))
  {
    hide Divides, Clear, Free, AllSound, HasKind;
  }

  lemma {:induction false} AfterSplits(lib: Library, m: Mail, k: nat)
    requires m.Multi? && k <= |m.parts| && Comes(lib, m)
    ensures SplitOn(After(m, k), Delimiter(m.boundary)) == Pieces(m, k)
    decreases |m.parts| - k
  {
    hide Raw, SplitOn, Delimiter, Comes, Clear, Free;
    var d := Delimiter(m.boundary);
    Divided(lib, m, k);
    if k == |m.parts| {
      SplitFree("--" + m.epilogue, d);
    } else {
      AfterSplits(lib, m, k + 1);
      ClearSplits(CRLF + Raw(m.parts[k]) + CRLF, d, After(m, k + 1));
    }
  }

  lemma PieceIsPart(raw: string)
    requires !("--" <= raw)
    ensures TrimPrefix(CRLF + raw + CRLF) == raw + CRLF && !("--" <= raw + CRLF) && TrimSuffix(raw + CRLF) == raw
  {
    assert (CRLF + raw + CRLF)[2..] == raw + CRLF;
    assert |raw| < 2 ==> (raw + CRLF)[|raw|] == '\r';
    assert |raw| >= 2 ==> (raw + CRLF)[..2] == raw[..2];
  }

  lemma LastIsNoPart(epilogue: string)
    ensures "--" <= TrimPrefix("--" + epilogue)
  {
    assert ("--" + epilogue)[0] == '-';
  }

  lemma {:induction false} PiecesAreParts(lib: Library, m: Mail, k: nat, bound: nat)
    requires m.Multi? && k <= |m.parts| && Comes(lib, m)
    requires forall p <- Pieces(m, k) :: |p| < bound
    ensures TakeSegments(Pieces(m, k), bound) == Raws(m, k)
    decreases |m.parts| - k
  {
    hide Raw, Delimiter, TrimSuffix, TrimPrefix, Comes, Clear, Free;
    Divided(lib, m, k);
    if k == |m.parts| {
      LastIsNoPart(m.epilogue);
    } else {
      var piece, rest := CRLF + Raw(m.parts[k]) + CRLF, Pieces(m, k + 1);
      PieceIsPart(Raw(m.parts[k]));
      assert forall p <- rest :: p in [piece] + rest;
      PiecesAreParts(lib, m, k + 1, bound);
      assert ([piece] + rest)[1..] == rest;
    }
  }

  /** A multipart divides into its parts, without what is before and after them. */
  lemma PartsComeApart(lib: Library, m: Mail)
    requires m.Multi? && Comes(lib, m)
    ensures Segments(m.preamble + Delimiter(m.boundary) + After(m, 0), m.boundary) == Raws(m, 0)
  {
    hide Raw, SplitOn, Delimiter, After, Pieces, TakeSegments, Raws;
    var d := Delimiter(m.boundary);
    var body := m.preamble + d + After(m, 0);
    ClearSplits(m.preamble, d, After(m, 0));
    AfterSplits(lib, m, 0);
    var pieces := SplitOn(body, d);
    assert pieces[1..] == Pieces(m, 0);
    NotEmpty(m, 0);
    assert forall p <- pieces[1..] :: p in pieces;
    PiecesAreParts(lib, m, 0, |body|);
  }

  lemma NotEmpty(m: Mail, k: nat)
    requires m.Multi? && k <= |m.parts|
    ensures Pieces(m, k) != []
  {
  }

  // ----- Reading it -------------------------------------------------------

  lemma DecodesAs(lib: Library, encoding: string, body: string, text: string)
    requires Says(lib, encoding, body, text)
    ensures DecodeTransfer(lib, body, encoding) == text
  {
    assert |"quoted-printable"| != |"base64"|;
  }

  lemma HeadSplits(lib: Library, fields: seq<Field>, cr: string, body: string)
    requires Faithful(lib) && fields != [] && AllSound(fields) && IsEnding(cr)
    requires cr == "" ==> Free(body, "\r\n\r\n")
    ensures SplitHeaders(lib, Head(fields, cr) + body) == (Readings(lib, fields), body)
  {
    hide Block, AllLines, SplitHeaders, Readings;
    HeadReads(lib, fields, cr, body);
  }

  lemma TextIsNoMultipart(kind: string)
    ensures HasKind(kind, "text") <==> "text/" <= kind
    ensures HasKind(kind, "multipart") <==> "multipart/" <= kind
    ensures "text/" <= kind ==> !HasKind(kind, "multipart")
    ensures HasKind("text/plain", "text") && !HasKind("text/plain", "multipart")
  {
    assert "text" + "/" == "text/" && "multipart" + "/" == "multipart/" && "multipart/"[0] == 'm';
  }

  /** A part of a message offers its texts in the order they stand. */
  lemma {:induction false} PartReads(lib: Library, m: Mail, bound: nat, got: Bodies)
    requires Faithful(lib) && Comes(lib, m) && |Raw(m)| < bound
    ensures CollectPart(lib, Raw(m), bound, got) == OfferAll(got, Texts(lib, m))
    decreases m, 1, 0
  {
    hide Head, After, SplitHeaders, DecodeTransfer, Segments, Faithful, HeaderValue, Readings, Lower, HasKind, Clear,
         Delimiter, CollectParts, Says, Free, AllSound, ParseMedia, Offer;
    TextIsNoMultipart(TypeOf(lib, m.fields));
    match m
    case Leaf(fields, cr, body, text) =>
      HeadSplits(lib, fields, cr, body);
      DecodesAs(lib, EncodingOf(lib, fields), body, text);
      if "text/" <= TypeOf(lib, fields) {
        assert Texts(lib, m)[1..] == [];
      }
    case Multi(fields, b, preamble, parts, _) =>
      var body := preamble + Delimiter(b) + After(m, 0);
      HeadSplits(lib, fields, "\r", body);
      PartsComeApart(lib, m);
      PartsRead(lib, m, 0, |body|, got);
  }

  lemma {:induction false} PartsRead(lib: Library, m: Mail, k: nat, bound: nat, got: Bodies)
    requires Faithful(lib) && m.Multi? && k <= |m.parts| && Comes(lib, m)
    requires forall p <- Raws(m, k) :: |p| < bound
    ensures CollectParts(lib, Raws(m, k), bound, got) == OfferAll(got, TextsFrom(lib, m, k))
    decreases m, 0, |m.parts| - k
  {
    hide Raw, Faithful, CollectPart, Texts, Clear, Delimiter, HasKind, Offer;
    if k < |m.parts| {
      var raw, rest := Raw(m.parts[k]), Raws(m, k + 1);
      assert raw in [raw] + rest && forall p <- rest :: p in [raw] + rest;
      assert ([raw] + rest)[1..] == rest;
      assert Comes(lib, m.parts[k]);
      PartReads(lib, m.parts[k], bound, got);
      var now := CollectPart(lib, raw, bound, got);
      PartsRead(lib, m, k + 1, bound, now);
      OfferedInTurn(got, Texts(lib, m.parts[k]), TextsFrom(lib, m, k + 1));
    }
  }

  /**
   Any message reads as the first of its plain texts and the first of its HTML
   texts that say something, in the order they stand, however deep; the HTML,
   trimmed, stands in for a plain text that is not there.
   */
  lemma MessageSays(lib: Library, m: Mail)
    requires Faithful(lib) && Comes(lib, m)
    ensures var plain, html := FirstOf(Texts(lib, m), "text/plain"), FirstOf(Texts(lib, m), "text/html");
      ParseMessage(lib, Raw(m)) == Bodies(if plain != "" then plain else TrimSpace(lib, html), html)
  {
    hide Head, After, SplitHeaders, DecodeTransfer, Segments, Faithful, HeaderValue, Readings, HasKind, Clear,
         Delimiter, CollectParts, Says, Free, AllSound, ParseMedia, Texts, TextsFrom, Offer, Lower;
    TextIsNoMultipart(TypeOf(lib, m.fields));
    OfferedFirst(Bodies("", ""), Texts(lib, m));
    match m
    case Leaf(fields, cr, body, text) =>
      HeadSplits(lib, fields, cr, body);
      DecodesAs(lib, EncodingOf(lib, fields), body, text);
      OneText(lib, m);
    case Multi(fields, b, preamble, parts, _) =>
      var text := preamble + Delimiter(b) + After(m, 0);
      HeadSplits(lib, fields, "\r", text);
      PartsComeApart(lib, m);
      PartsRead(lib, m, 0, |text|, Bodies("", ""));
      TextsAreFrom(lib, m);
  }

  lemma TextsAreFrom(lib: Library, m: Mail)
    requires m.Multi?
    ensures Texts(lib, m) == TextsFrom(lib, m, 0)
  {
  }

  lemma OneText(lib: Library, m: Mail)
    requires m.Leaf?
    ensures var kind := TypeOf(lib, m.fields);
      && FirstOf(Texts(lib, m), "text/plain") ==
        (if "text/" <= kind && Lower(kind) == "text/plain" then m.text else "")
      && FirstOf(Texts(lib, m), "text/html") ==
        (if "text/" <= kind && Lower(kind) == "text/html" then m.text else "")
  {
    hide Lower, TypeOf;
    if "text/" <= TypeOf(lib, m.fields) {
      assert Texts(lib, m)[1..] == [];
    }
  }

  /** A part without headers, a break and then its body, is read as headers throughout, so its body is lost. */
  lemma HeaderlessIsLost(lib: Library, body: string)
    requires Free(CRLF + body, "\r\n\r\n") && Free(CRLF + body, "\n\n")
    ensures SplitHeaders(lib, CRLF + body).1 == ""
  {
    hide ParseHeaders;
    NoIndex(CRLF + body, "\r\n\r\n", 0);
    NoIndex(CRLF + body, "\n\n", 0);
  }
}
