/** Reading what was written: every set body comes back, octet for octet. */
module MimeRoundTrip {
  import opened MimeText
  import opened Mime
  import opened MimeHeaders
  import Base64

  // ----- Header blocks ----------------------------------------------------

  /** A header the writer may put out: its key names a field and its value has no break. */
  predicate Writable(h: Header) {
    && Inked(h.key) && NoBreak(h.key) && NoBreak(h.value)
    && forall k :: 0 <= k < |h.key| ==> h.key[k] != ':'
  }

  predicate AllWritable(hs: seq<Header>) { forall k :: 0 <= k < |hs| ==> Writable(hs[k]) }

  function AsRead(lib: Library, h: Header): Header { Header(h.key, TrimSpace(lib, " " + h.value)) }

  function AllAsRead(lib: Library, hs: seq<Header>): seq<Header> {
    if hs == [] then [] else [AsRead(lib, hs[0])] + AllAsRead(lib, hs[1..])
  }

  /** The headers as their lines: a space follows the colon, and none goes on. */
  function FieldsOf(hs: seq<Header>): seq<Field> {
    if hs == [] then [] else [Field(hs[0].key, " " + hs[0].value, [])] + FieldsOf(hs[1..])
  }

  lemma {:induction false} LinesAreBlock(hs: seq<Header>)
    requires hs != []
    ensures AllLines(FieldsOf(hs)) != [] && Lines(hs) == Block(AllLines(FieldsOf(hs)), "\r") + CRLF
    decreases |hs|
  {
    var f := FieldsOf(hs)[0];
    assert f.key + ":" + f.first == HeaderLine(hs[0]) && FieldLines(f) == [HeaderLine(hs[0])];
    assert AllLines(FieldsOf(hs)) == [HeaderLine(hs[0])] + AllLines(FieldsOf(hs[1..]));
    if |hs| == 1 {
      assert Lines(hs[1..]) == "" && AllLines(FieldsOf(hs[1..])) == [];
    } else {
      LinesAreBlock(hs[1..]);
    }
  }

  lemma {:induction false} FieldsAreSound(lib: Library, hs: seq<Header>)
    requires AllWritable(hs)
    ensures AllSound(FieldsOf(hs)) && |FieldsOf(hs)| == |hs| && Readings(lib, FieldsOf(hs)) == AllAsRead(lib, hs)
    decreases |hs|
  {
    if hs != [] {
      assert Writable(hs[0]);
      FieldsAreSound(lib, hs[1..]);
    }
  }

  /** A rendered entity splits into its headers, as read, and its body. */
  lemma RenderedSplits(lib: Library, e: Entity)
    requires Faithful(lib) && e.headers != [] && AllWritable(e.headers)
    ensures SplitHeaders(lib, Render(e)) == (AllAsRead(lib, e.headers), e.body)
  {
    hide SplitHeaders, Block, AllLines, Lines, Faithful, AllAsRead, Readings, FieldsOf;
    var fields := FieldsOf(e.headers);
    FieldsAreSound(lib, e.headers);
    LinesAreBlock(e.headers);
    HeadReads(lib, fields, "\r", e.body);
    assert Render(e) == Block(AllLines(fields), "\r") + BlankLine("\r") + e.body;
  }

  // ----- Base64 bodies ----------------------------------------------------

  lemma {:induction false} WithoutJoin(a: string, b: string)
    ensures WithoutLineSpace(a + b) == WithoutLineSpace(a) + WithoutLineSpace(b)
  {
    if a == "" {
      assert a + b == b;
    } else {
      assert (a + b)[1..] == a[1..] + b;
      WithoutJoin(a[1..], b);
    }
  }

  lemma {:induction false} WithoutKeepsDigits(s: string)
    requires forall k :: 0 <= k < |s| ==> Base64.IsEncodingChar(s[k])
    ensures WithoutLineSpace(s) == s
  {
    if s != "" {
      WithoutKeepsDigits(s[1..]);
    }
  }

  /** No line of an encoding holds a dash. */
  lemma {:induction false} WrappedHasNoDash(encoded: string)
    requires forall k :: 0 <= k < |encoded| ==> Base64.IsEncodingChar(encoded[k])
    ensures forall k :: 0 <= k < |Wrapped(encoded)| ==> Wrapped(encoded)[k] != '-'
    decreases |encoded|
  {
    if |encoded| > 76 {
      WrappedHasNoDash(encoded[76..]);
    }
  }

  lemma {:induction false} WrappedEndsLine(encoded: string)
    ensures EndsLine(Wrapped(encoded))
    decreases |encoded|
  {
    if |encoded| > 76 {
      WrappedEndsLine(encoded[76..]);
      EndsLater(encoded[..76] + CRLF, Wrapped(encoded[76..]));
    } else {
      EndsLater(encoded, CRLF);
    }
  }

  /** The text of the lines is what was wrapped, with or without the last break. */
  lemma {:induction false} WrappedUnwraps(encoded: string)
    requires forall k :: 0 <= k < |encoded| ==> Base64.IsEncodingChar(encoded[k])
    ensures WithoutLineSpace(Wrapped(encoded)) == encoded
    ensures EndsLine(Wrapped(encoded))
    ensures WithoutLineSpace(Wrapped(encoded)[..|Wrapped(encoded)| - 2]) == encoded
    decreases |encoded|
  {
    hide WithoutLineSpace, Base64.IsEncodingChar;
    BreakVanishes();
    WrappedEndsLine(encoded);
    if |encoded| > 76 {
      var line, rest := encoded[..76], encoded[76..];
      var w := Wrapped(rest);
      WrappedUnwraps(rest);
      WrappedEndsLine(rest);
      LineUnwraps(line, w, rest);
      LineUnwraps(line, w[..|w| - 2], rest);
      assert Wrapped(encoded)[..|Wrapped(encoded)| - 2] == line + CRLF + w[..|w| - 2];
      assert encoded == line + rest;
    } else {
      WithoutKeepsDigits(encoded);
      WithoutJoin(encoded, CRLF);
      assert (encoded + CRLF)[..|encoded|] == encoded;
    }
  }

  lemma LineUnwraps(line: string, w: string, rest: string)
    requires forall k :: 0 <= k < |line| ==> Base64.IsEncodingChar(line[k])
    requires WithoutLineSpace(w) == rest
    ensures WithoutLineSpace(line + CRLF + w) == line + rest
  {
    BreakVanishes();
    WithoutKeepsDigits(line);
    WithoutJoin(line, CRLF);
    WithoutJoin(line + CRLF, w);
  }

  lemma BreakVanishes()
    ensures WithoutLineSpace(CRLF) == ""
  {
    assert CRLF[1..] == "\n" && "\n"[1..] == "";
  }

  /** What an armored body, with or without its last break, decodes to. */
  lemma ArmoredDecodes(lib: Library, contents: string)
    requires Faithful(lib) && Base64.IsOctets(contents)
    ensures DecodeTransfer(lib, Armored(contents), "base64") == contents
    ensures EndsLine(Armored(contents))
    ensures DecodeTransfer(lib, TrimSuffix(Armored(contents)), "base64") == contents
  {
    hide Wrapped, WithoutLineSpace, Base64.Encode, Base64.Decode;
    var encoded := Base64.Encode(contents);
    Base64.EncodeAlphabet(contents);
    WrappedUnwraps(encoded);
    WrappedEndsLine(encoded);
    Base64.DecodeEncode(contents);
    assert Inked("base64");
    assert Lower("base64") == "base64";
  }

  // ----- Delimiters occur in no body --------------------------------------

  const SIX := "------"

  predicate NoDouble(s: string) { forall k :: 0 <= k < |s| - 1 ==> !(s[k] == '-' && s[k + 1] == '-') }

  /** The part of a boundary after its dashes. */
  function Stem(subtype: string, b: string): string
    requires IsBoundary(subtype, b)
  {
    (if subtype == "mixed" then "kilasflow-mixed-" else "kilasflow-alt-") + b[|b| - 24..]
  }

  /** A delimiter is six dashes and a stem that starts with a letter and has no two dashes together. */
  lemma DelimiterForm(subtype: string, b: string)
    requires IsBoundary(subtype, b)
    ensures var stem := Stem(subtype, b);
      && Delimiter(b) == SIX + stem && b == "----" + stem
      && NoDouble(stem) && NoBreak(stem) && |stem| > 16 && stem[0] == 'k'
      && stem[10] == if subtype == "mixed" then 'm' else 'a'
    ensures NoBreak(Delimiter(b)) && Delimiter(b)[0] == '-' && |Delimiter(b)| > 6
  {
    var token := b[|b| - 24..];
    var prefix := if subtype == "mixed" then "kilasflow-mixed-" else "kilasflow-alt-";
    StemForm(prefix, token);
    DelimiterSpelled(if subtype == "mixed" then "mixed" else "alt", token);
    var stem := prefix + token;
    assert NoBreak(SIX + stem);
  }

  lemma DelimiterSpelled(kind: string, token: string)
    requires kind == "mixed" || kind == "alt"
    ensures var stem := (if kind == "mixed" then "kilasflow-mixed-" else "kilasflow-alt-") + token;
      BoundaryOf(kind, token) == "----" + stem && Delimiter(BoundaryOf(kind, token)) == SIX + stem
  {
    if kind == "mixed" {
      assert "----kilasflow-" + "mixed" + "-" == "----" + "kilasflow-mixed-";
      assert "----kilasflow-" + "mixed" + "-" + token == "----" + "kilasflow-mixed-" + token;
    } else {
      assert "----kilasflow-" + "alt" + "-" == "----" + "kilasflow-alt-";
      assert "----kilasflow-" + "alt" + "-" + token == "----" + "kilasflow-alt-" + token;
    }
  }

  lemma StemForm(prefix: string, token: string)
    requires IsToken(token) && (prefix == "kilasflow-mixed-" || prefix == "kilasflow-alt-")
    ensures NoDouble(prefix + token) && NoBreak(prefix + token)
  {
    assert NoDouble(prefix) && NoBreak(prefix);
    forall k | 0 <= k < |prefix + token| - 1
      ensures !((prefix + token)[k] == '-' && (prefix + token)[k + 1] == '-')
    {
      if k < |prefix| - 1 {
        assert !(prefix[k] == '-' && prefix[k + 1] == '-');
      } else {
        assert (prefix + token)[k + 1] == token[k + 1 - |prefix|];
      }
    }
  }

  lemma FreeOfSix(s: string, d: string)
    requires SIX <= d && Free(s, SIX)
    ensures Free(s, d)
  {
    forall k: nat ensures !Occurs(s, d, k) {
      assert !Occurs(s, SIX, k);
      PrefixOccurs(s, SIX, d, k);
    }
  }

  /** Two neighbours that are not both dashes rule six dashes out. */
  lemma PairMismatch(s: string, d: string, k: nat)
    requires |d| >= 2 && d[0] == '-' && d[1] == '-'
    requires k + 1 < |s| ==> !(s[k] == '-' && s[k + 1] == '-')
    ensures !Occurs(s, d, k)
  {
    if k + 1 < |s| && s[k] != '-' {
      Mismatch(s, d, k, 0);
    } else {
      Mismatch(s, d, k, 1);
    }
  }

  lemma NoDoubleIsFree(s: string)
    requires NoDouble(s)
    ensures Free(s, SIX)
  {
    forall k: nat ensures !Occurs(s, SIX, k) {
      PairMismatch(s, SIX, k);
    }
  }

  /** Four dashes between texts that do not lengthen them are not six. */
  lemma FourDashesAreFree(p: string, r: string)
    requires NoDouble(p) && p != "" && p[|p| - 1] != '-' && NoDouble(r) && r != "" && r[0] != '-'
    ensures Free(p + "----" + r, SIX)
  {
    var s := p + "----" + r;
    forall k: nat ensures !Occurs(s, SIX, k) {
      if |p| <= k <= |p| + 4 {
        assert s[|p| + 4] == r[0];
        Mismatch(s, SIX, k, |p| + 4 - k);
      } else {
        if k < |p| {
          assert s[k] == p[k] && (k + 1 < |p| ==> s[k + 1] == p[k + 1]);
        } else if k + 1 < |s| {
          assert s[k] == r[k - |p| - 4] && s[k + 1] == r[k - |p| - 3];
        }
        PairMismatch(s, SIX, k);
      }
    }
  }

  /** A delimiter line of the alternatives holds no delimiter of the mixed level. */
  lemma OtherDelimiterIsFree(alt: string, mixed: string, close: string)
    requires IsBoundary("alternative", alt) && IsBoundary("mixed", mixed) && (close == "" || close == "--")
    ensures Free(Delimiter(alt) + close, Delimiter(mixed))
  {
    DelimiterForm("alternative", alt);
    DelimiterForm("mixed", mixed);
    var stem, d := Stem("alternative", alt), Delimiter(mixed);
    var s := Delimiter(alt) + close;
    assert s == SIX + stem + close;
    forall k: nat ensures !Occurs(s, d, k) {
      if k == 0 {
        assert s[16] == stem[10];
        Mismatch(s, d, 0, 16);
      } else if k <= 6 {
        assert s[6] == stem[0];
        Mismatch(s, d, k, 6 - k);
      } else if k + 1 < 6 + |stem| {
        assert s[k] == stem[k - 6] && s[k + 1] == stem[k - 5];
        PairMismatch(s, d, k);
      } else {
        Mismatch(s, d, k, 5);
      }
    }
  }

  // ----- Entities and delimiters ------------------------------------------

  ghost predicate FreeLines(hs: seq<Header>, d: string) {
    forall k :: 0 <= k < |hs| ==> Free(HeaderLine(hs[k]), d)
  }

  lemma {:induction false} LinesAreFree(hs: seq<Header>, d: string)
    requires FreeLines(hs, d) && NoBreak(d) && d != ""
    ensures Free(Lines(hs), d) && (hs != [] ==> EndsLine(Lines(hs)))
    decreases hs
  {
    if hs != [] {
      var line, rest := HeaderLine(hs[0]), Lines(hs[1..]);
      LinesAreFree(hs[1..], d);
      FreeLine(line, d);
      EndsWithBreak(line, "");
      assert line + CRLF + "" == line + CRLF;
      FreeJoin(line + CRLF, rest, d);
      if hs[1..] == [] {
        assert line + CRLF + rest == line + CRLF;
      } else {
        EndsLater(line + CRLF, rest);
      }
    } else {
      FreeEmpty(d);
    }
  }

  lemma FreeEmpty(d: string)
    requires d != ""
    ensures Free("", d)
  {
  }

  lemma EndsWithBreak(a: string, b: string)
    requires b == ""
    ensures EndsLine(a + CRLF + b)
  {
    assert (a + CRLF + b)[|a + CRLF + b| - 2..] == CRLF;
  }

  lemma EndsLater(a: string, b: string)
    requires EndsLine(b)
    ensures EndsLine(a + b)
  {
    assert (a + b)[|a + b| - 2..] == b[|b| - 2..];
  }

  lemma RenderIsFree(e: Entity, d: string)
    requires e.headers != [] && FreeLines(e.headers, d) && Free(e.body, d) && NoBreak(d) && d != ""
    ensures Free(Render(e), d)
  {
    LinesAreFree(e.headers, d);
    FreeEmpty(d);
    FreeLine("", d);
    assert "" + CRLF == CRLF;
    FreeJoin(Lines(e.headers), CRLF, d);
    EndsLater(Lines(e.headers), CRLF);
    FreeJoin(Lines(e.headers) + CRLF, e.body, d);
  }

  /** The delimiter is absent from every base64 line. */
  lemma ArmoredIsFree(contents: string, d: string)
    requires Base64.IsOctets(contents) && d != "" && d[0] == '-'
    ensures Free(Armored(contents), d) && EndsLine(Armored(contents))
  {
    Base64.EncodeAlphabet(contents);
    WrappedEndsLine(Base64.Encode(contents));
    WrappedHasNoDash(Base64.Encode(contents));
    FreeOfFirst(Armored(contents), d);
  }

  /** The keys the writer uses name fields. */
  lemma KeyIsWritable(key: string)
    requires key == "Content-Type" || key == "Content-Transfer-Encoding" || key == "Content-ID" ||
      key == "Content-Disposition"
    ensures Inked(key) && NoBreak(key) && forall k :: 0 <= k < |key| ==> key[k] != ':'
  {
  }

  lemma TransferLine()
    ensures Writable(TRANSFER) && Free(HeaderLine(TRANSFER), SIX)
  {
    KeyIsWritable("Content-Transfer-Encoding");
    NoDoubleJoin("Content-Transfer-Encoding", ": ");
    NoDoubleJoin("Content-Transfer-Encoding" + ": ", "base64");
    NoDoubleIsFree(HeaderLine(TRANSFER));
    assert NoBreak("base64");
  }

  lemma NoDoubleJoin(a: string, b: string)
    requires NoDouble(a) && NoDouble(b) && (a != "" ==> a[|a| - 1] != '-')
    ensures NoDouble(a + b)
  {
    forall k | 0 <= k < |a + b| - 1 ensures !((a + b)[k] == '-' && (a + b)[k + 1] == '-') {
      if k >= |a| {
        assert (a + b)[k] == b[k - |a|] && (a + b)[k + 1] == b[k - |a| + 1];
      }
    }
  }

  lemma TypeLine(value: string)
    requires Inked(value) && NoBreak(value) && Free("Content-Type: " + value, SIX)
    ensures var h := Header("Content-Type", value); Writable(h) && Free(HeaderLine(h), SIX)
  {
    KeyIsWritable("Content-Type");
    assert "Content-Type" + ": " == "Content-Type: ";
  }

  lemma TextTypeLine(subtype: string)
    requires subtype == "plain" || subtype == "html"
    ensures var h := Header("Content-Type", TextType(subtype));
      Writable(h) && Inked(TextType(subtype)) && Free(HeaderLine(h), SIX)
  {
    NoDoubleJoin("text/", subtype);
    NoDoubleJoin("text/" + subtype, "; charset=utf-8");
    var value := TextType(subtype);
    NoDoubleJoin("Content-Type: ", value);
    NoDoubleIsFree("Content-Type: " + value);
    TypeLine(value);
  }

  lemma TextEntityIsFree(subtype: string, contents: string, d: string)
    requires Base64.IsOctets(contents) && (subtype == "plain" || subtype == "html")
    requires SIX <= d && NoBreak(d)
    ensures var e := TextEntity(subtype, contents);
      Free(Render(e), d) && AllWritable(e.headers) && EndsLine(e.body)
  {
    var e := TextEntity(subtype, contents);
    TextTypeLine(subtype);
    TransferLine();
    ArmoredIsFree(contents, d);
    FreeOfSix(HeaderLine(e.headers[0]), d);
    FreeOfSix(HeaderLine(e.headers[1]), d);
    RenderIsFree(e, d);
  }

  lemma MultipartTypeLine(subtype: string, b: string)
    requires IsBoundary(subtype, b)
    ensures var h := Header("Content-Type", MultipartType(subtype, b));
      Writable(h) && Inked(MultipartType(subtype, b)) && Free(HeaderLine(h), SIX)
  {
    DelimiterForm(subtype, b);
    var stem := Stem(subtype, b);
    var p := MultipartPrefix(subtype);
    var value := MultipartType(subtype, b);
    FourDashesAreFree("Content-Type: " + p, stem + "\"");
    assert value == p + "----" + stem + "\"";
    assert "Content-Type: " + value == ("Content-Type: " + p) + "----" + (stem + "\"");
    TypeLine(value);
  }

  lemma MultipartPrefix(subtype: string) returns (p: string)
    requires subtype == "mixed" || subtype == "alternative"
    ensures p == "multipart/" + subtype + "; boundary=\"" && p != "" && p[0] == 'm'
    ensures NoDouble("Content-Type: " + p) && NoBreak(p) && p[|p| - 1] == '"'
  {
    if subtype == "mixed" {
      p := MixedPrefix();
    } else {
      p := AlternativePrefix();
    }
    NoDoubleJoin("Content-Type: ", p);
  }

  lemma MixedPrefix() returns (p: string)
    ensures p == "multipart/" + "mixed" + "; boundary=\"" && |p| > 0 && p[0] == 'm' && p[|p| - 1] == '"'
    ensures forall k :: 0 <= k < |p| ==> p[k] != '-' && p[k] != '\r' && p[k] != '\n'
  {
    p := "multipart/mixed; boundary=\"";
  }

  lemma AlternativePrefix() returns (p: string)
    ensures p == "multipart/" + "alternative" + "; boundary=\"" && |p| > 0 && p[0] == 'm' && p[|p| - 1] == '"'
    ensures forall k :: 0 <= k < |p| ==> p[k] != '-' && p[k] != '\r' && p[k] != '\n'
  {
    p := "multipart/alternative; boundary=\"";
  }

  // ----- Splitting a multipart body ---------------------------------------

  /** A delimited body whose closing delimiter is followed by close. */
  function Framed(b: string, parts: seq<string>, close: string): string {
    if parts == [] then Delimiter(b) + close
    else Delimiter(b) + CRLF + parts[0] + Framed(b, parts[1..], close)
  }

  /** The same after its first delimiter. */
  function AfterDelimiter(b: string, parts: seq<string>, close: string): string {
    if parts == [] then close
    else CRLF + parts[0] + Delimiter(b) + AfterDelimiter(b, parts[1..], close)
  }

  lemma {:induction false} FramedStarts(b: string, parts: seq<string>, close: string)
    ensures Framed(b, parts, close) == Delimiter(b) + AfterDelimiter(b, parts, close)
    decreases parts
  {
    if parts != [] {
      FramedStarts(b, parts[1..], close);
    }
  }

  /** Dropping the last break of a delimited body only shortens what follows the closing delimiter. */
  lemma {:induction false} DelimitedIsFramed(b: string, parts: seq<string>)
    ensures Delimited(b, parts) == Framed(b, parts, "--" + CRLF)
    ensures Framed(b, parts, "--") + CRLF == Delimited(b, parts)
    decreases parts
  {
    if parts != [] {
      DelimitedIsFramed(b, parts[1..]);
    }
  }

  /** A part as the writer emits it: it ends a line, starts no dash line, and holds no delimiter. */
  ghost predicate IsPart(part: string, d: string) {
    EndsLine(part) && part[0] != '-' && Free(part, d)
  }

  ghost predicate AreParts(parts: seq<string>, d: string) {
    forall k :: 0 <= k < |parts| ==> IsPart(parts[k], d)
  }

  /** The parts without their last breaks. */
  function AllShorn(parts: seq<string>): seq<string> {
    if parts == [] then [] else [TrimSuffix(parts[0])] + AllShorn(parts[1..])
  }

  function Pieces(parts: seq<string>, close: string): seq<string> {
    if parts == [] then [close] else [CRLF + parts[0]] + Pieces(parts[1..], close)
  }

  lemma {:induction false} SplitsIntoPieces(b: string, parts: seq<string>, close: string)
    requires var d := Delimiter(b); NoBreak(d) && |d| > 6 && AreParts(parts, d)
    requires close == "--" || close == "--" + CRLF
    ensures SplitOn(AfterDelimiter(b, parts, close), Delimiter(b)) == Pieces(parts, close)
    decreases parts
  {
    var d := Delimiter(b);
    if parts == [] {
      forall k: nat ensures !Occurs(close, d, k) {}
      SplitFree(close, d);
    } else {
      var head, rest := CRLF + parts[0], AfterDelimiter(b, parts[1..], close);
      assert IsPart(parts[0], d);
      FreeEmpty(d);
      FreeLine("", d);
      assert "" + CRLF == CRLF;
      FreeJoin(CRLF, parts[0], d);
      EndsLater(CRLF, parts[0]);
      FirstIsOwn(head, d, rest);
      SplitAtFirst(head, d, rest);
      SplitsIntoPieces(b, parts[1..], close);
    }
  }

  lemma FirstIsOwn(head: string, d: string, rest: string)
    requires EndsLine(head) && NoBreak(d) && d != "" && Free(head, d)
    ensures forall k: nat :: k < |head| ==> !Occurs(head + d + rest, d, k)
  {
    forall k: nat | k < |head| ensures !Occurs(head + d + rest, d, k) {
      assert head + d + rest == head + (d + rest);
      if Occurs(head + (d + rest), d, k) {
        OccursInOne(head, d + rest, d, k);
      }
    }
  }

  lemma {:induction false} PiecesBecomeParts(parts: seq<string>, d: string, close: string, bound: nat)
    requires AreParts(parts, d) && (close == "--" || close == "--" + CRLF)
    requires forall p <- Pieces(parts, close) :: |p| < bound
    ensures TakeSegments(Pieces(parts, close), bound) == AllShorn(parts)
    decreases parts
  {
    if parts != [] {
      hide Occurs, Free;
      assert IsPart(parts[0], d);
      var piece, rest := CRLF + parts[0], Pieces(parts[1..], close);
      assert piece[2..] == parts[0];
      assert Pieces(parts, close) == [piece] + rest;
      assert forall p <- rest :: p in [piece] + rest;
      PiecesBecomeParts(parts[1..], d, close, bound);
      assert ([piece] + rest)[1..] == rest;
    } else {
      assert CRLF[0] != close[0];
    }
  }

  /** Reading a delimited body gives back its parts, each without its last break. */
  lemma SegmentsOfFramed(b: string, parts: seq<string>, close: string)
    requires var d := Delimiter(b); NoBreak(d) && |d| > 6 && AreParts(parts, d)
    requires close == "--" || close == "--" + CRLF
    ensures Segments(Framed(b, parts, close), b) == AllShorn(parts)
  {
    var d := Delimiter(b);
    var body := Framed(b, parts, close);
    FramedStarts(b, parts, close);
    var rest := AfterDelimiter(b, parts, close);
    assert body == "" + d + rest;
    SplitAtFirst("", d, rest);
    SplitsIntoPieces(b, parts, close);
    var pieces := SplitOn(body, d);
    assert pieces[1..] == Pieces(parts, close);
    assert forall p <- pieces[1..] :: p in pieces;
    PiecesBecomeParts(parts, d, close, |body|);
  }

  // ----- Reading one part -------------------------------------------------

  /** An entity without the break its body ends with. */
  function ShornEntity(e: Entity): Entity { Entity(e.headers, TrimSuffix(e.body)) }

  lemma ShornRender(e: Entity)
    requires EndsLine(e.body)
    ensures EndsLine(Render(e)) && TrimSuffix(Render(e)) == Render(ShornEntity(e))
  {
    EndsLater(Lines(e.headers) + CRLF, e.body);
  }

  lemma FirstHeader(lib: Library, h: Header, hs: seq<Header>, name: string)
    requires Lower(h.key) == Lower(name)
    ensures HeaderValue(AllAsRead(lib, [h] + hs), name) == TrimSpace(lib, " " + h.value)
  {
    assert ([h] + hs)[0] == h;
    assert AllAsRead(lib, [h] + hs)[0] == AsRead(lib, h);
  }

  lemma SkipHeader(lib: Library, h: Header, hs: seq<Header>, name: string)
    requires Lower(h.key) != Lower(name)
    ensures HeaderValue(AllAsRead(lib, [h] + hs), name) == HeaderValue(AllAsRead(lib, hs), name)
  {
    assert ([h] + hs)[1..] == hs;
    var all := AllAsRead(lib, [h] + hs);
    assert all == [AsRead(lib, h)] + AllAsRead(lib, hs);
    assert all[1..] == AllAsRead(lib, hs);
  }

  lemma KeysRead()
    ensures Lower("Content-Type") == Lower("content-type")
    ensures Lower("Content-Transfer-Encoding") == Lower("content-transfer-encoding")
    ensures Lower("Content-Type") != Lower("content-transfer-encoding")
  {
    hide Lower;
    TypeKey();
    TransferKey();
    assert |Lower("Content-Type")| == 12 && |Lower("content-transfer-encoding")| == 25;
  }

  lemma TypeKey()
    ensures Lower("Content-Type") == Lower("content-type")
  {
    hide Lower;
    SameLower("Content-Type", "content-type");
  }

  lemma TransferKey()
    ensures Lower("Content-Transfer-Encoding") == Lower("content-transfer-encoding")
  {
    hide Lower;
    SameLower("Content-Transfer-Encoding", "content-transfer-encoding");
  }

  lemma {:induction false} SameLower(a: string, b: string)
    requires |a| == |b| && forall k :: 0 <= k < |a| ==> LowerChar(a[k]) == LowerChar(b[k])
    ensures Lower(a) == Lower(b)
  {
  }

  /** An entity that declares its type first and base64 second reads with both. */
  lemma DeclaredHeaders(lib: Library, value: string, rest: seq<Header>)
    requires Faithful(lib)
    ensures var hs := AllAsRead(lib, [Header("Content-Type", value), TRANSFER] + rest);
      && HeaderValue(hs, "content-type") == TrimSpace(lib, " " + value)
      && HeaderValue(hs, "content-transfer-encoding") == "base64"
  {
    hide AllAsRead, HeaderValue, Lower;
    KeysRead();
    assert Inked("base64");
    var typed := Header("Content-Type", value);
    assert [typed, TRANSFER] + rest == [typed] + ([TRANSFER] + rest);
    FirstHeader(lib, typed, [TRANSFER] + rest, "content-type");
    SkipHeader(lib, typed, [TRANSFER] + rest, "content-transfer-encoding");
    FirstHeader(lib, TRANSFER, rest, "content-transfer-encoding");
  }

  lemma TextKinds()
    ensures HasKind("text/plain", "text") && !HasKind("text/plain", "multipart")
    ensures HasKind("text/html", "text") && !HasKind("text/html", "multipart")
    ensures Lower("text/plain") == "text/plain" && Lower("text/html") == "text/html"
    ensures "text/plain" != "text/html"
  {
    hide Lower;
    NotMultipart("text/plain");
    NotMultipart("text/html");
    assert "text" + "/" == "text/";
    SelfLower("text/plain");
    SelfLower("text/html");
    assert |"text/plain"| != |"text/html"|;
  }

  lemma NotMultipart(kind: string)
    requires kind != "" && kind[0] == 't'
    ensures !HasKind(kind, "multipart")
  {
    assert ("multipart" + "/")[0] == 'm';
  }

  lemma SelfLower(s: string)
    requires forall k :: 0 <= k < |s| ==> !('A' <= s[k] <= 'Z')
    ensures Lower(s) == s
  {
  }

  /** A text part offers its contents under its type. */
  lemma TextPartReads(lib: Library, subtype: string, contents: string, bound: nat, got: Bodies)
    requires Faithful(lib) && Base64.IsOctets(contents) && (subtype == "plain" || subtype == "html")
    requires |Render(ShornEntity(TextEntity(subtype, contents)))| < bound
    ensures CollectPart(lib, Render(ShornEntity(TextEntity(subtype, contents))), bound, got)
         == Offer(got, if subtype == "plain" then "text/plain" else "text/html", contents)
  {
    hide Armored, DecodeTransfer, Render;
    var e := ShornEntity(TextEntity(subtype, contents));
    TextTypeLine(subtype);
    TransferLine();
    RenderedSplits(lib, e);
    assert e.headers == [Header("Content-Type", TextType(subtype)), TRANSFER] + [];
    DeclaredHeaders(lib, TextType(subtype), []);
    ArmoredDecodes(lib, contents);
    TextKinds();
  }
}
