/** What stands in a message as it goes out (nodes/email.go): its headers, its types and its attachments. */
module MimeWritten {
  import opened Wrappers
  import opened MimeText
  import opened Mime
  import opened MimeRoundTrip
  import opened MimeTheorem
  import Base64

  // ----- Looking up a header ----------------------------------------------

  /** ASCII letters in lower case, and everything else as it is. */
  lemma LowerLetters(c: char, v: nat)
    requires v < 26
    ensures LowerChar("ABCDEFGHIJKLMNOPQRSTUVWXYZ"[v]) == "abcdefghijklmnopqrstuvwxyz"[v]
    ensures (forall k :: 0 <= k < 26 ==> c != "ABCDEFGHIJKLMNOPQRSTUVWXYZ"[k]) ==> LowerChar(c) == c
  {
    assert "ABCDEFGHIJKLMNOPQRSTUVWXYZ"[v] == 'A' + v as char && "abcdefghijklmnopqrstuvwxyz"[v] == 'a' + v as char;
    if 'A' <= c <= 'Z' {
      assert c == "ABCDEFGHIJKLMNOPQRSTUVWXYZ"[(c - 'A') as int];
    }
  }

  /** A header is found under its name in any case, the first of several; there is none under another name. */
  lemma {:induction false} HeaderFound(hs: seq<Header>, name: string, i: nat)
    requires i <= |hs| && forall k :: 0 <= k < i ==> Lower(hs[k].key) != Lower(name)
    ensures i == |hs| ==> HeaderValue(hs, name) == ""
    ensures i < |hs| && Lower(hs[i].key) == Lower(name) ==> HeaderValue(hs, name) == hs[i].value
    decreases |hs|
  {
    hide Lower;
    if i > 0 {
      assert hs[1..] == hs[1..];
      HeaderFound(hs[1..], name, i - 1);
    }
  }

  predicate Apart(key: string, name: string) {
    key != "" && name != "" && (|key| != |name| || LowerChar(key[0]) != LowerChar(name[0]))
  }

  predicate AllApart(hs: seq<Header>, name: string) { forall k :: 0 <= k < |hs| ==> Apart(hs[k].key, name) }

  lemma ApartAre(key: string, name: string)
    requires Apart(key, name)
    ensures Lower(key) != Lower(name)
  {
    LowerStart(key);
    LowerStart(name);
  }

  lemma {:induction false} Skips(lib: Library, a: seq<Header>, b: seq<Header>, name: string)
    requires AllApart(a, name)
    ensures HeaderValue(AllAsRead(lib, a + b), name) == HeaderValue(AllAsRead(lib, b), name)
    decreases |a|
  {
    hide Lower, AllAsRead, HeaderValue;
    if a == [] {
      assert a + b == b;
    } else {
      assert a + b == [a[0]] + (a[1..] + b);
      assert Apart(a[0].key, name);
      ApartAre(a[0].key, name);
      SkipHeader(lib, a[0], a[1..] + b, name);
      Skips(lib, a[1..], b, name);
    }
  }

  lemma Finds(lib: Library, a: seq<Header>, h: Header, b: seq<Header>, name: string)
    requires AllApart(a, name) && h.key == name
    ensures HeaderValue(AllAsRead(lib, a + ([h] + b)), name) == TrimSpace(lib, " " + h.value)
  {
    hide Lower, AllAsRead, HeaderValue;
    Skips(lib, a, [h] + b, name);
    FirstHeader(lib, h, b, name);
  }

  lemma FindsAt(lib: Library, all: seq<Header>, i: nat)
    requires i < |all| && forall k :: 0 <= k < i ==> Apart(all[k].key, all[i].key)
    ensures HeaderValue(AllAsRead(lib, all), all[i].key) == TrimSpace(lib, " " + all[i].value)
  {
    hide AllAsRead, HeaderValue, Apart;
    assert all == all[..i] + ([all[i]] + all[i + 1..]);
    Finds(lib, all[..i], all[i], all[i + 1..], all[i].key);
  }

  lemma FindsNone(lib: Library, a: seq<Header>, name: string)
    requires AllApart(a, name)
    ensures HeaderValue(AllAsRead(lib, a), name) == ""
  {
    hide Lower;
    Skips(lib, a, [], name);
    assert a + [] == a && AllAsRead(lib, []) == [];
  }

  // ----- The headers of a message -----------------------------------------

  /** A value as its reader finds it: trimmed. */
  function Found(lib: Library, value: string): string { TrimSpace(lib, " " + value) }

  lemma {:induction false} JoinedGrows(values: seq<string>, last: string)
    ensures Joined(values + [last]) == if values == [] then last else Joined(values) + ", " + last
    decreases |values|
  {
    if |values| > 1 {
      assert (values + [last])[1..] == values[1..] + [last];
      JoinedGrows(values[1..], last);
    } else if |values| == 1 {
      assert (values + [last])[1..] == [last];
    }
  }

  /** How many headers of a message stand before its subject. */
  function Before(msg: Message): nat { 2 + (if msg.cc != [] then 1 else 0) + (if msg.replyTo != "" then 1 else 0) }

  lemma TopIs(lib: Library, msg: Message)
    ensures var top, n := TopHeaders(lib, msg), Before(msg);
      && |top| == n + 4 && top[0] == Header("From", msg.from) && top[1] == Header("To", Joined(msg.to))
      && (msg.cc != [] ==> top[2] == Header("Cc", Joined(msg.cc)))
      && (msg.replyTo != "" ==> top[n - 1] == Header("Reply-To", msg.replyTo))
      && top[n] == Header("Subject", lib.encodeSubject(msg.subject)) && top[n + 1] == Header("Date", msg.date)
      && top[n + 2] == Header("Message-ID", msg.messageID) && top[n + 3] == Header("MIME-Version", "1.0")
      && forall k :: 2 <= k < n ==>
        (top[k].key == "Cc" && msg.cc != []) || (top[k].key == "Reply-To" && msg.replyTo != "")
  {
    hide Joined;
  }

  lemma SendersFound(lib: Library, msg: Message, content: seq<Header>)
    ensures var hs := AllAsRead(lib, TopHeaders(lib, msg) + content);
      HeaderValue(hs, "From") == Found(lib, msg.from) && HeaderValue(hs, "To") == Found(lib, Joined(msg.to))
  {
    hide AllAsRead, HeaderValue, Joined, TopHeaders;
    TopIs(lib, msg);
    FindsAt(lib, TopHeaders(lib, msg) + content, 0);
    FindsAt(lib, TopHeaders(lib, msg) + content, 1);
  }

  lemma CopyFound(lib: Library, msg: Message, content: seq<Header>)
    requires AllApart(content, "Cc")
    ensures HeaderValue(AllAsRead(lib, TopHeaders(lib, msg) + content), "Cc") ==
      if msg.cc == [] then "" else Found(lib, Joined(msg.cc))
  {
    hide AllAsRead, HeaderValue, Joined, TopHeaders;
    TopIs(lib, msg);
    var all := TopHeaders(lib, msg) + content;
    if msg.cc == [] {
      TopApart(lib, msg, |TopHeaders(lib, msg)|, "Cc");
      FindsNone(lib, all, "Cc");
    } else {
      FindsAt(lib, all, 2);
    }
  }

  /** The first headers of a message, up to one of a name, go by other names. */
  lemma TopApart(lib: Library, msg: Message, i: nat, name: string)
    requires i <= Before(msg) + 4
    requires name == "Cc" ==> msg.cc == []
    requires name == "Reply-To" ==> msg.replyTo == "" || i < Before(msg)
    requires name == "Subject" ==> i <= Before(msg)
    requires name == "Date" ==> i <= Before(msg) + 1
    requires name == "Message-ID" ==> i <= Before(msg) + 2
    requires name == "MIME-Version" ==> i <= Before(msg) + 3
    requires name in {"Cc", "Reply-To", "Subject", "Date", "Message-ID", "MIME-Version", "Content-Type"}
    ensures |TopHeaders(lib, msg)| == Before(msg) + 4 && AllApart(TopHeaders(lib, msg)[..i], name)
  {
    hide Joined, TopHeaders;
    TopIs(lib, msg);
    var top, n := TopHeaders(lib, msg), Before(msg);
    forall k | 0 <= k < i ensures Apart(top[k].key, name) {
    }
  }

  lemma ReplyFound(lib: Library, msg: Message, content: seq<Header>)
    requires AllApart(content, "Reply-To")
    ensures HeaderValue(AllAsRead(lib, TopHeaders(lib, msg) + content), "Reply-To") ==
      if msg.replyTo == "" then "" else Found(lib, msg.replyTo)
  {
    hide AllAsRead, HeaderValue, Joined, TopHeaders, Apart;
    TopIs(lib, msg);
    var all := TopHeaders(lib, msg) + content;
    if msg.replyTo == "" {
      TopApart(lib, msg, |TopHeaders(lib, msg)|, "Reply-To");
      FindsNone(lib, all, "Reply-To");
    } else {
      TopApart(lib, msg, Before(msg) - 1, "Reply-To");
      FoundInTop(lib, msg, content, Before(msg) - 1);
    }
  }

  lemma FoundInTop(lib: Library, msg: Message, content: seq<Header>, i: nat)
    requires i < |TopHeaders(lib, msg)| && AllApart(TopHeaders(lib, msg)[..i], TopHeaders(lib, msg)[i].key)
    ensures var h := TopHeaders(lib, msg)[i];
      HeaderValue(AllAsRead(lib, TopHeaders(lib, msg) + content), h.key) == Found(lib, h.value)
  {
    hide AllAsRead, HeaderValue, TopHeaders, Apart;
    var top := TopHeaders(lib, msg);
    assert forall k :: 0 <= k < i ==> top[k] == top[..i][k];
    FindsAt(lib, top + content, i);
  }

  lemma LastFound(lib: Library, msg: Message, content: seq<Header>)
    ensures var hs := AllAsRead(lib, TopHeaders(lib, msg) + content);
      && HeaderValue(hs, "Subject") == Found(lib, lib.encodeSubject(msg.subject))
      && HeaderValue(hs, "Date") == Found(lib, msg.date)
      && HeaderValue(hs, "Message-ID") == Found(lib, msg.messageID)
      && HeaderValue(hs, "MIME-Version") == Found(lib, "1.0")
  {
    hide AllAsRead, HeaderValue, Joined, TopHeaders, AllApart, Found, Before;
    var n := Before(msg);
    TopIs(lib, msg);
    TopApart(lib, msg, n, "Subject");
    FoundInTop(lib, msg, content, n);
    TopApart(lib, msg, n + 1, "Date");
    FoundInTop(lib, msg, content, n + 1);
    TopApart(lib, msg, n + 2, "Message-ID");
    FoundInTop(lib, msg, content, n + 2);
    TopApart(lib, msg, n + 3, "MIME-Version");
    FoundInTop(lib, msg, content, n + 3);
  }

  lemma TypeFound(lib: Library, msg: Message, value: string, rest: seq<Header>)
    ensures HeaderValue(AllAsRead(lib, TopHeaders(lib, msg) + ([Header("Content-Type", value)] + rest)),
      "Content-Type") == Found(lib, value)
  {
    hide AllAsRead, HeaderValue, Joined, TopHeaders, AllApart;
    var top := TopHeaders(lib, msg);
    TopIs(lib, msg);
    TopApart(lib, msg, |top|, "Content-Type");
    assert top[..|top|] == top;
    Finds(lib, top, Header("Content-Type", value), rest, "Content-Type");
  }

  /** The type a message goes out under. */
  function OutgoingType(lib: Library, msg: Message, alt: string, mixed: string): string {
    if msg.attachments != [] then "multipart/mixed; boundary=\"" + mixed + "\""
    else if Blank(lib, msg.text) then "text/html; charset=utf-8"
    else if Blank(lib, msg.html) then "text/plain; charset=utf-8"
    else "multipart/alternative; boundary=\"" + alt + "\""
  }

  lemma ContentHeaders(lib: Library, msg: Message, alt: string, mixed: string)
    requires HasOctets(msg) && IsBoundary("alternative", alt) && IsBoundary("mixed", mixed)
    ensures var hs := ContentEntity(lib, msg, alt, mixed).headers;
      && hs != [] && hs == [Header("Content-Type", OutgoingType(lib, msg, alt, mixed))] + hs[1..]
      && AllWritable(hs) && AllApart(hs, "Cc") && AllApart(hs, "Reply-To")
  {
    hide IsBoundary, Armored, Delimited, NoBreak;
    TextTypeLine("plain");
    TextTypeLine("html");
    TransferLine();
    MultipartTypeLine("alternative", alt);
    MultipartTypeLine("mixed", mixed);
    TypesSpelled(alt, mixed);
  }

  lemma TypesSpelled(alt: string, mixed: string)
    ensures TextType("plain") == "text/plain; charset=utf-8" && TextType("html") == "text/html; charset=utf-8"
    ensures MultipartType("alternative", alt) == "multipart/alternative; boundary=\"" + alt + "\""
    ensures MultipartType("mixed", mixed) == "multipart/mixed; boundary=\"" + mixed + "\""
  {
    assert "text/" + "plain" == "text/plain" && "text/" + "html" == "text/html";
    assert "multipart/" + "alternative" == "multipart/alternative" && "multipart/" + "mixed" == "multipart/mixed";
    assert "multipart/alternative" + "; boundary=\"" == "multipart/alternative; boundary=\"";
    assert "multipart/mixed" + "; boundary=\"" == "multipart/mixed; boundary=\"";
    assert "text/plain" + "; charset=utf-8" == "text/plain; charset=utf-8";
    assert "text/html" + "; charset=utf-8" == "text/html; charset=utf-8";
  }

  /** A message splits into the headers of its sender and of its content, and its content. */
  lemma MessageSplits(lib: Library, msg: Message, alt: string, mixed: string)
    requires Faithful(lib) && HasOctets(msg) && Unbroken(TopHeaders(lib, msg))
    requires IsBoundary("alternative", alt) && IsBoundary("mixed", mixed)
    ensures var content := ContentEntity(lib, msg, alt, mixed);
      SplitHeaders(lib, MessageText(lib, msg, alt, mixed)) ==
        (AllAsRead(lib, TopHeaders(lib, msg) + content.headers), content.body)
  {
    hide AllAsRead, TopHeaders, ContentEntity, Render, SplitHeaders, IsBoundary, AllApart, OutgoingType, Unbroken,
         Faithful, HasOctets, Writable;
    var content := ContentEntity(lib, msg, alt, mixed);
    TopIsWritable(lib, msg);
    TopIsNotEmpty(lib, msg);
    ContentHeaders(lib, msg, alt, mixed);
    RenderedSplits(lib, Entity(TopHeaders(lib, msg) + content.headers, content.body));
  }

  /** Every header a message is written with is found in it, and it goes out under the type of its content. */
  lemma HeadersComeBack(lib: Library, msg: Message, alt: string, mixed: string)
    requires Faithful(lib) && HasOctets(msg) && Unbroken(TopHeaders(lib, msg))
    requires IsBoundary("alternative", alt) && IsBoundary("mixed", mixed)
    ensures var hs := SplitHeaders(lib, MessageText(lib, msg, alt, mixed)).0;
      && HeaderValue(hs, "From") == Found(lib, msg.from)
      && HeaderValue(hs, "To") == Found(lib, Joined(msg.to))
      && HeaderValue(hs, "Cc") == (if msg.cc == [] then "" else Found(lib, Joined(msg.cc)))
      && HeaderValue(hs, "Reply-To") == (if msg.replyTo == "" then "" else Found(lib, msg.replyTo))
      && HeaderValue(hs, "Subject") == Found(lib, lib.encodeSubject(msg.subject))
      && HeaderValue(hs, "Date") == Found(lib, msg.date)
      && HeaderValue(hs, "Message-ID") == Found(lib, msg.messageID)
      && HeaderValue(hs, "MIME-Version") == "1.0"
      && HeaderValue(hs, "Content-Type") == Found(lib, OutgoingType(lib, msg, alt, mixed))
  {
    hide *;
    var content := ContentEntity(lib, msg, alt, mixed).headers;
    MessageSplits(lib, msg, alt, mixed);
    ContentHeaders(lib, msg, alt, mixed);
    SendersFound(lib, msg, content);
    CopyFound(lib, msg, content);
    ReplyFound(lib, msg, content);
    LastFound(lib, msg, content);
    TypeFound(lib, msg, OutgoingType(lib, msg, alt, mixed), content[1..]);
    VersionFound(lib);
  }

  lemma VersionFound(lib: Library)
    requires Faithful(lib)
    ensures Found(lib, "1.0") == "1.0"
  {
    assert Inked("1.0");
  }

  // ----- The attachments of a message -------------------------------------

  lemma {:induction false} ShornAt(parts: seq<string>, k: nat)
    requires k < |parts|
    ensures |AllShorn(parts)| == |parts| && AllShorn(parts)[k] == TrimSuffix(parts[k])
    decreases |parts|
  {
    hide TrimSuffix;
    if k > 0 {
      ShornAt(parts[1..], k - 1);
    } else if |parts| > 1 {
      ShornAt(parts[1..], 0);
    }
  }

  /** One attachment, as it stands between the delimiters. */
  lemma AttachmentSplits(lib: Library, a: Attachment, mixed: string)
    requires Faithful(lib) && CleanAttachment(lib, a, mixed)
    ensures var (hs, body) := SplitHeaders(lib, TrimSuffix(Render(AttachmentEntity(lib, a))));
      && HeaderValue(hs, "Content-Type") == Found(lib, a.mediaType + "; name=" + lib.quote(a.fileName))
      && HeaderValue(hs, "Content-Disposition") == Found(lib, a.disposition + "; filename=" + lib.quote(a.fileName))
      && HeaderValue(hs, "Content-ID") == (if a.contentID == "" then "" else "<" + a.contentID + ">")
      && HeaderValue(hs, "Content-Transfer-Encoding") == "base64"
      && Base64.Decode(WithoutLineSpace(body)) == Some(a.contents)
  {
    hide AllAsRead, HeaderValue, Armored, Render, AllWritable, SplitHeaders, WithoutLineSpace, TrimSuffix;
    var e := AttachmentEntity(lib, a);
    ArmoredEnds(a.contents);
    ShornRender(e);
    AttachmentHeadersWritable(lib, a);
    RenderedSplits(lib, ShornEntity(e));
    AttachmentFound(lib, a);
    ArmorComesOff(a.contents);
  }

  lemma ArmorComesOff(contents: string)
    requires Base64.IsOctets(contents)
    ensures Base64.Decode(WithoutLineSpace(TrimSuffix(Armored(contents)))) == Some(contents)
  {
    hide Wrapped, WithoutLineSpace, Base64.Encode, Base64.Decode;
    Base64.EncodeAlphabet(contents);
    WrappedUnwraps(Base64.Encode(contents));
    Base64.DecodeEncode(contents);
  }

  lemma AttachmentFound(lib: Library, a: Attachment)
    requires Faithful(lib)
    ensures var hs := AllAsRead(lib, AttachmentHeaders(lib, a));
      && HeaderValue(hs, "Content-Type") == Found(lib, a.mediaType + "; name=" + lib.quote(a.fileName))
      && HeaderValue(hs, "Content-Disposition") == Found(lib, a.disposition + "; filename=" + lib.quote(a.fileName))
      && HeaderValue(hs, "Content-ID") == (if a.contentID == "" then "" else "<" + a.contentID + ">")
      && HeaderValue(hs, "Content-Transfer-Encoding") == "base64"
  {
    hide AllAsRead, HeaderValue, AttachmentHeaders, Faithful;
    var all := AttachmentHeaders(lib, a);
    AttachmentIs(lib, a);
    FindsAt(lib, all, 0);
    FindsAt(lib, all, 1);
    FindsAt(lib, all, |all| - 1);
    if a.contentID == "" {
      FindsNone(lib, all, "Content-ID");
    } else {
      FindsAt(lib, all, 2);
    }
    InkIsKept(lib, a.contentID);
  }

  lemma AttachmentIs(lib: Library, a: Attachment)
    ensures var all := AttachmentHeaders(lib, a);
      && |all| == (if a.contentID == "" then 3 else 4)
      && all[0] == Header("Content-Type", a.mediaType + "; name=" + lib.quote(a.fileName)) && all[1] == TRANSFER
      && all[|all| - 1] == Header("Content-Disposition", a.disposition + "; filename=" + lib.quote(a.fileName))
      && (a.contentID != "" ==> all[2] == Header("Content-ID", "<" + a.contentID + ">"))
  {
  }

  lemma InkIsKept(lib: Library, id: string)
    requires Faithful(lib)
    ensures TrimSpace(lib, " " + "base64") == "base64"
    ensures TrimSpace(lib, " " + ("<" + id + ">")) == "<" + id + ">"
  {
    assert Inked("base64") && Inked("<" + id + ">");
  }

  /** The attachments stand after the body, in order, each with its type, its name and its octets. */
  lemma AttachmentsComeBack(lib: Library, msg: Message, alt: string, mixed: string, i: nat)
    requires Faithful(lib) && HasOctets(msg) && CleanHeaders(lib, msg, mixed) && i < |msg.attachments|
    requires IsBoundary("alternative", alt) && IsBoundary("mixed", mixed)
    ensures var parts := Segments(SplitHeaders(lib, MessageText(lib, msg, alt, mixed)).1, mixed);
            var a := msg.attachments[i];
      && |parts| == 1 + |msg.attachments|
      && var (hs, body) := SplitHeaders(lib, parts[1 + i]);
         && HeaderValue(hs, "Content-Type") == Found(lib, a.mediaType + "; name=" + lib.quote(a.fileName))
         && HeaderValue(hs, "Content-Disposition") == Found(lib, a.disposition + "; filename=" + lib.quote(a.fileName))
         && HeaderValue(hs, "Content-ID") == (if a.contentID == "" then "" else "<" + a.contentID + ">")
         && HeaderValue(hs, "Content-Transfer-Encoding") == "base64"
         && Base64.Decode(WithoutLineSpace(body)) == Some(a.contents)
  {
    hide *;
    CleanMessage(lib, msg, mixed, i);
    MessageSplits(lib, msg, alt, mixed);
    MixedDivides(lib, msg, alt, mixed, i);
    AttachmentSplits(lib, msg.attachments[i], mixed);
  }

  lemma CleanMessage(lib: Library, msg: Message, mixed: string, i: nat)
    requires CleanHeaders(lib, msg, mixed) && i < |msg.attachments|
    ensures Unbroken(TopHeaders(lib, msg)) && CleanAttachment(lib, msg.attachments[i], mixed)
    ensures Base64.IsOctets(msg.attachments[i].contents)
  {
  }

  lemma MixedDivides(lib: Library, msg: Message, alt: string, mixed: string, i: nat)
    requires HasOctets(msg) && CleanHeaders(lib, msg, mixed) && i < |msg.attachments|
    requires IsBoundary("alternative", alt) && IsBoundary("mixed", mixed)
    ensures var parts := Segments(ContentEntity(lib, msg, alt, mixed).body, mixed);
      |parts| == 1 + |msg.attachments| &&
      parts[1 + i] == TrimSuffix(Render(AttachmentEntity(lib, msg.attachments[i])))
  {
    hide BodyEntity, Render, IsBoundary, Segments, Delimited, Framed, AreParts, AllShorn, AttachmentEntity, TrimSuffix,
         CleanHeaders;
    var parts := [Render(BodyEntity(lib, msg, alt))] + AttachmentParts(lib, msg.attachments);
    MixedAreParts(lib, msg, alt, mixed);
    DelimitedIsFramed(mixed, parts);
    DelimiterForm("mixed", mixed);
    SegmentsOfFramed(mixed, parts, "--" + CRLF);
    ShornAt(parts, 1 + i);
  }

  // ----- Base64 bodies ----------------------------------------------------

  /** Space, tab, carriage return and line feed go, wherever they stand, and nothing else does. */
  lemma LineSpaceGoes(a: string, c: char, b: string)
    ensures c == ' ' || c == '\t' || c == '\r' || c == '\n' ==> WithoutLineSpace(a + [c] + b) == WithoutLineSpace(a + b)
    ensures !(c == ' ' || c == '\t' || c == '\r' || c == '\n') ==>
      WithoutLineSpace(a + [c] + b) == WithoutLineSpace(a) + [c] + WithoutLineSpace(b)
    ensures WithoutLineSpace("") == ""
  {
    WithoutJoin(a, [c] + b);
    WithoutJoin([c], b);
    WithoutJoin(a, b);
    assert a + [c] + b == a + ([c] + b);
    assert [c][1..] == "";
  }

  /** No line of an encoded body is longer than 76 characters. */
  lemma {:induction false} LinesAreShort(encoded: string)
    requires forall k :: 0 <= k < |encoded| ==> Base64.IsEncodingChar(encoded[k])
    ensures forall line <- SplitOn(Wrapped(encoded), CRLF) :: |line| <= 76
    decreases |encoded|
  {
    hide SplitOn;
    var n := if |encoded| > 76 then 76 else |encoded|;
    var line, rest := encoded[..n], if |encoded| > 76 then Wrapped(encoded[76..]) else "";
    assert Wrapped(encoded) == line + CRLF + rest;
    forall k: nat | k < n ensures !Occurs(line + CRLF + rest, CRLF, k) {
      Mismatch(line + CRLF + rest, CRLF, k, 0);
    }
    SplitAtFirst(line, CRLF, rest);
    if |encoded| > 76 {
      LinesAreShort(encoded[76..]);
    } else {
      FreeOfFirst("", CRLF);
      SplitFree("", CRLF);
    }
  }
}
