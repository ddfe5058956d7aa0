/** Reading header blocks (nodes/email.go): folded headers, and lines that end with or without a carriage return. */
module MimeHeaders {
  import opened Wrappers
  import opened MimeText
  import opened Mime

  // ----- Headers as they come ---------------------------------------------

  /** A header over one or more lines: what follows the colon, and the lines that go on from there. */
  datatype Field = Field(key: string, first: string, more: seq<string>)

  function FieldLines(f: Field): seq<string> { [f.key + ":" + f.first] + f.more }

  /** A header as it may be written: a name, a colon, and further lines that start with a space or a tab. */
  predicate Sound(f: Field) {
    && Inked(f.key) && NoBreak(f.key) && (forall k :: 0 <= k < |f.key| ==> f.key[k] != ':')
    && NoBreak(f.first)
    && forall k :: 0 <= k < |f.more| ==>
      NoBreak(f.more[k]) && f.more[k] != "" && (f.more[k][0] == ' ' || f.more[k][0] == '\t')
  }

  predicate AllSound(fields: seq<Field>) { forall k :: 0 <= k < |fields| ==> Sound(fields[k]) }

  function AllLines(fields: seq<Field>): seq<string> {
    if fields == [] then [] else FieldLines(fields[0]) + AllLines(fields[1..])
  }

  /** Lines, with a break after each but the last. */
  function Block(lines: seq<string>, cr: string): string {
    if lines == [] then "" else if |lines| == 1 then lines[0] else lines[0] + cr + "\n" + Block(lines[1..], cr)
  }

  function Unfolded(lib: Library, first: string, more: seq<string>): string {
    if more == [] then TrimSpace(lib, first)
    else Unfolded(lib, first, more[..|more| - 1]) + " " + TrimSpace(lib, more[|more| - 1])
  }

  /** A header as it reads: its lines, each trimmed, with a space between them. */
  function Reading(lib: Library, f: Field): Header { Header(f.key, Unfolded(lib, f.first, f.more)) }

  function Readings(lib: Library, fields: seq<Field>): (hs: seq<Header>)
    ensures |hs| == |fields| && forall k :: 0 <= k < |hs| ==> hs[k] == Reading(lib, fields[k])
  {
    if fields == [] then [] else [Reading(lib, fields[0])] + Readings(lib, fields[1..])
  }

  // ----- Header blocks ----------------------------------------------------

  predicate AllLinesHold(lines: seq<string>) { forall k :: 0 <= k < |lines| ==> lines[k] != "" && NoBreak(lines[k]) }

  predicate IsEnding(cr: string) { cr == "" || cr == "\r" }

  lemma ReturnsDrop(line: string, cr: string)
    requires NoBreak(line) && IsEnding(cr)
    ensures DropReturns(line + cr) == line
  {
    assert cr == "" ==> line + cr == line;
    assert cr == "\r" ==> (line + cr)[..|line|] == line;
  }

  lemma LineAlike(lib: Library, got: seq<Header>, line: string, cr: string)
    requires NoBreak(line) && IsEnding(cr)
    ensures AddLine(lib, got, line + cr) == AddLine(lib, got, line)
  {
    hide DropReturns, IndexFrom;
    ReturnsDrop(line, cr);
    ReturnsDrop(line, "");
    assert line + "" == line;
  }

  lemma LineSplits(line: string, cr: string, rest: string)
    requires NoBreak(line) && IsEnding(cr)
    ensures SplitOn(line + cr + "\n" + rest, "\n") == [line + cr] + SplitOn(rest, "\n")
  {
    var head := line + cr;
    forall k: nat | k < |head| ensures !Occurs(head + "\n" + rest, "\n", k) {
      Mismatch(head + "\n" + rest, "\n", k, 0);
    }
    SplitAtFirst(head, "\n", rest);
  }

  /** A block reads as its lines, whichever way they end. */
  lemma {:induction false} BlockReads(lib: Library, got: seq<Header>, lines: seq<string>, cr: string)
    requires lines != [] && AllLinesHold(lines) && IsEnding(cr)
    ensures AddLines(lib, got, SplitOn(Block(lines, cr), "\n")) == AddLines(lib, got, lines)
    decreases |lines|
  {
    hide AddLine, SplitOn;
    var line := lines[0];
    if |lines| == 1 {
      FreeOfFirst(line, "\n");
      SplitFree(line, "\n");
      assert lines == [line];
    } else {
      var rest := Block(lines[1..], cr);
      LineSplits(line, cr, rest);
      LineAlike(lib, got, line, cr);
      BlockReads(lib, AddLine(lib, got, line), lines[1..], cr);
      assert ([line + cr] + SplitOn(rest, "\n"))[1..] == SplitOn(rest, "\n");
    }
  }

  ghost predicate NotBefore(s: string, d: string, n: nat) { forall k: nat :: k < n ==> !Occurs(s, d, k) }

  function BlankLine(cr: string): string { cr + "\n" + cr + "\n" }

  /** The blank line is the first place where two breaks meet. */
  lemma {:induction false} BlankIsFirst(lines: seq<string>, cr: string, body: string)
    requires lines != [] && AllLinesHold(lines) && IsEnding(cr)
    ensures NotBefore(Block(lines, cr) + BlankLine(cr) + body, BlankLine(cr), |Block(lines, cr)|)
    decreases |lines|
  {
    hide BlankLine, Occurs;
    var d, line := BlankLine(cr), lines[0];
    if |lines| == 1 {
      NotInLine(line, cr, body);
    } else {
      var rest := Block(lines[1..], cr) + d + body;
      assert Block(lines, cr) + d + body == line + cr + "\n" + rest;
      BlankIsFirst(lines[1..], cr, body);
      FirstOfBlock(lines[1..], cr);
      NotEarlier(line, cr, rest, |Block(lines[1..], cr)|);
    }
  }

  lemma NotInLine(line: string, cr: string, body: string)
    requires NoBreak(line) && IsEnding(cr)
    ensures NotBefore(line + BlankLine(cr) + body, BlankLine(cr), |line|)
  {
    forall k: nat | k < |line| ensures !Occurs(line + BlankLine(cr) + body, BlankLine(cr), k) {
      Mismatch(line + BlankLine(cr) + body, BlankLine(cr), k, 0);
    }
  }

  lemma NotEarlier(line: string, cr: string, rest: string, n: nat)
    requires NoBreak(line) && IsEnding(cr) && rest != "" && NoBreak([rest[0]]) && NotBefore(rest, BlankLine(cr), n)
    ensures NotBefore(line + cr + "\n" + rest, BlankLine(cr), |line| + |cr| + 1 + n)
  {
    var raw, d, m := line + cr + "\n" + rest, BlankLine(cr), |line| + |cr| + 1;
    forall k: nat | k < m + n ensures !Occurs(raw, d, k) {
      if k < |line| {
        Mismatch(raw, d, k, 0);
      } else if k < m {
        InBreak(raw, d, k, |line|, cr);
      } else {
        assert k + |d| <= |raw| ==> raw[k..k + |d|] == rest[k - m..k - m + |d|];
        assert !Occurs(rest, d, k - m);
      }
    }
  }

  lemma FirstOfBlock(lines: seq<string>, cr: string)
    requires lines != [] && AllLinesHold(lines)
    ensures |Block(lines, cr)| > 0 && Block(lines, cr)[0] == lines[0][0] && NoBreak([lines[0][0]])
  {
  }

  lemma InBreak(raw: string, d: string, k: nat, at: nat, cr: string)
    requires IsEnding(cr) && d == BlankLine(cr) && at <= k < at + |cr| + 1 < |raw|
    requires raw[at..at + |cr| + 1] == cr + "\n" && NoBreak([raw[at + |cr| + 1]])
    ensures !Occurs(raw, d, k)
  {
    assert raw[at..at + |cr| + 1][k - at] == raw[k];
    if k == at {
      Mismatch(raw, d, k, |cr| + 1);
    } else {
      Mismatch(raw, d, k, 0);
    }
  }

  lemma {:induction false} BlockHasNoReturn(lines: seq<string>, k: nat)
    requires lines != [] && AllLinesHold(lines) && k < |Block(lines, "")|
    ensures Block(lines, "")[k] != '\r'
    decreases |lines|
  {
    if |lines| > 1 && k > |lines[0]| {
      BlockHasNoReturn(lines[1..], k - |lines[0]| - 1);
    }
  }

  lemma NoStrictBlank(lines: seq<string>, body: string)
    requires lines != [] && AllLinesHold(lines) && Free(body, "\r\n\r\n")
    ensures Free(Block(lines, "") + BlankLine("") + body, "\r\n\r\n")
  {
    var head := Block(lines, "") + BlankLine("");
    var raw := head + body;
    forall k: nat ensures !Occurs(raw, "\r\n\r\n", k) {
      if k < |head| {
        if k < |Block(lines, "")| {
          BlockHasNoReturn(lines, k);
        }
        Mismatch(raw, "\r\n\r\n", k, 0);
      } else {
        assert k + 4 <= |raw| ==> raw[k..k + 4] == body[k - |head|..k - |head| + 4];
        assert !Occurs(body, "\r\n\r\n", k - |head|);
      }
    }
  }

  /**
   Lines, a blank line and a body are divided at the blank line; without
   carriage returns if the body has no blank line that has them.
   */
  lemma BlockSplits(lib: Library, lines: seq<string>, cr: string, body: string)
    requires lines != [] && AllLinesHold(lines) && IsEnding(cr) && (cr == "" ==> Free(body, "\r\n\r\n"))
    ensures SplitHeaders(lib, Block(lines, cr) + BlankLine(cr) + body) == (AddLines(lib, [], lines), body)
  {
    hide AddLines, SplitOn, Block, BlankLine, IndexFrom;
    var block, d := Block(lines, cr), BlankLine(cr);
    var raw := block + d + body;
    BlankIsFirst(lines, cr, body);
    BlankLines();
    assert raw[|block|..|block| + |d|] == d;
    assert NotBefore(raw, d, |block|);
    IndexIs(raw, d, 0, |block|);
    BlockReads(lib, [], lines, cr);
    assert raw[..|block|] == block && raw[|block| + |d|..] == body;
    if cr == "" {
      NoStrictBlank(lines, body);
      NoIndex(raw, "\r\n\r\n", 0);
    }
  }

  lemma BlankLines()
    ensures BlankLine("") == "\n\n" && BlankLine("\r") == "\r\n\r\n"
  {
  }

  lemma {:induction false} AddLinesJoin(lib: Library, got: seq<Header>, a: seq<string>, b: seq<string>)
    ensures AddLines(lib, got, a + b) == AddLines(lib, AddLines(lib, got, a), b)
    decreases |a|
  {
    hide AddLine;
    if a == [] {
      assert a + b == b;
    } else {
      assert (a + b)[1..] == a[1..] + b;
      AddLinesJoin(lib, AddLine(lib, got, a[0]), a[1..], b);
    }
  }

  lemma FirstLineReads(lib: Library, got: seq<Header>, key: string, value: string)
    requires Faithful(lib) && Inked(key) && NoBreak(key) && NoBreak(value)
    requires forall k :: 0 <= k < |key| ==> key[k] != ':'
    ensures AddLine(lib, got, key + ":" + value) == got + [Header(key, TrimSpace(lib, value))]
  {
    hide DropReturns;
    var line := key + ":" + value;
    ReturnsDrop(line, "");
    assert line + "" == line;
    assert line[|key|..|key| + 1] == ":";
    forall m: nat | m < |key| ensures !Occurs(line, ":", m) {
      Mismatch(line, ":", m, 0);
    }
    IndexIs(line, ":", 0, |key|);
    assert line[..|key|] == key && line[|key| + 1..] == value;
  }

  lemma NextLineReads(lib: Library, got: seq<Header>, key: string, value: string, line: string)
    requires NoBreak(line) && line != "" && (line[0] == ' ' || line[0] == '\t')
    ensures AddLine(lib, got + [Header(key, value)], line) == got + [Header(key, value + " " + TrimSpace(lib, line))]
  {
    hide DropReturns;
    ReturnsDrop(line, "");
    assert line + "" == line;
  }

  /** A header over several lines reads as one. */
  lemma {:induction false} FieldReads(lib: Library, got: seq<Header>, f: Field)
    requires Faithful(lib) && Sound(f)
    ensures AddLines(lib, got, FieldLines(f)) == got + [Reading(lib, f)]
    decreases |f.more|
  {
    hide AddLine, TrimSpace, Faithful, Inked;
    if f.more == [] {
      FirstLineReads(lib, got, f.key, f.first);
      assert FieldLines(f) == [f.key + ":" + f.first];
      OneLine(lib, got, f.key + ":" + f.first);
    } else {
      var last := f.more[|f.more| - 1];
      var shorter := Field(f.key, f.first, f.more[..|f.more| - 1]);
      FieldReads(lib, got, shorter);
      assert FieldLines(f) == FieldLines(shorter) + [last];
      AddLinesJoin(lib, got, FieldLines(shorter), [last]);
      OneLine(lib, got + [Reading(lib, shorter)], last);
      NextLineReads(lib, got, f.key, Unfolded(lib, f.first, shorter.more), last);
    }
  }

  lemma OneLine(lib: Library, got: seq<Header>, line: string)
    ensures AddLines(lib, got, [line]) == AddLine(lib, got, line)
  {
    assert [line][1..] == [];
  }

  lemma {:induction false} FieldsRead(lib: Library, got: seq<Header>, fields: seq<Field>)
    requires Faithful(lib) && AllSound(fields)
    ensures AddLines(lib, got, AllLines(fields)) == got + Readings(lib, fields)
    decreases |fields|
  {
    hide AddLine, FieldLines, Faithful, Sound, Reading;
    if fields == [] {
      assert got + [] == got;
    } else {
      FieldReads(lib, got, fields[0]);
      FieldsRead(lib, got + [Reading(lib, fields[0])], fields[1..]);
      AddLinesJoin(lib, got, FieldLines(fields[0]), AllLines(fields[1..]));
      assert got + [Reading(lib, fields[0])] + Readings(lib, fields[1..]) ==
        got + ([Reading(lib, fields[0])] + Readings(lib, fields[1..]));
    }
  }

  lemma {:induction false} AllLinesAreLines(fields: seq<Field>)
    requires AllSound(fields)
    ensures AllLinesHold(AllLines(fields)) && (fields != [] ==> AllLines(fields) != [])
    ensures fields != [] ==> AllLines(fields)[0] == fields[0].key + ":" + fields[0].first
    decreases |fields|
  {
    if fields != [] {
      AllLinesAreLines(fields[1..]);
    }
  }

  /** The head of a message and its body are told apart, and each header reads as its unfolded lines. */
  lemma HeadReads(lib: Library, fields: seq<Field>, cr: string, body: string)
    requires Faithful(lib) && fields != [] && AllSound(fields) && IsEnding(cr) && (cr == "" ==> Free(body, "\r\n\r\n"))
    ensures AllLines(fields) != []
    ensures SplitHeaders(lib, Block(AllLines(fields), cr) + BlankLine(cr) + body) == (Readings(lib, fields), body)
  {
    hide AddLines, Block, SplitHeaders;
    AllLinesAreLines(fields);
    BlockSplits(lib, AllLines(fields), cr, body);
    FieldsRead(lib, [], fields);
    assert [] + Readings(lib, fields) == Readings(lib, fields);
  }
}
