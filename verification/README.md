# Verified model of the workflow engine's built-in nodes

The workflow engine runs graphs of nodes over lists of items. Most of a node
is its definition and its calls to a service. This project models the parts
of the nodes that are algorithms or state machines of their own, and proves
what they promise for every input and every run.

| files | what they model |
|---|---|
| `calculator.dfy`, `calculator_sound.dfy`, `calculator_complete.dfy`, `calculator_theorem.dfy`, `calculator_tool.dfy` | the calculator's grammar and values, and the recursive-descent parser whose position moves |
| `base64.dfy`, `mime_text.dfy`, `mime.dfy`, `mime_headers.dfy`, `mime_roundtrip.dfy`, `mime_theorem.dfy`, `mime_written.dfy`, `mime_reader.dfy`, `mime_io.dfy` | writing an e-mail message and reading one, that reading undoes writing, and what reading makes of any other message |
| `order.dfy` | the one ascending list of a set of keys, which map-driven code sorts into |
| `sheets.dfy`, `sheets_run.dfy` | appending and updating rows of a Google sheet: the plan, the remote grid, the read cache and the shadow copy held in Go slices |
| `sheets_trigger.dfy`, `detect_rows.dfy`, `columns.dfy` | change detection between ticks, finding the table on a sheet, column letters |
| `json.dfy`, `datastore_rule.dfy`, `datastore_tool.dfy`, `datastore_write.dfy`, `datastore_values.dfy`, `datastore_witness.dfy` | what a data table tool lets a model decide: values, and when structure as well |
| `fields.dfy`, `set_node.dfy` | dotted field names as paths, and the Set node's writes into shared maps |
| `joins.dfy` | joining items on fields through an index |
| `loop.dfy` | Loop Over Items and its state between invocations |
| `imap_poller.dfy`, `gmail_poller.dfy` | polling mailboxes: a watermark, and a bounded window of remembered ids |
| `coalescer.dfy`, `escaper.dfy` | merging streamed tokens, and escaping a URL query |
| `wrappers.dfy`, `decimal.dfy` | option and result types, printed numbers |

Code that changes state is written as methods and classes with loops, each
proved equal to a specification function; the lemmas are about those
functions. Library code that the nodes call is a parameter: number
arithmetic, media-type parsing, JSON encoding, expression evaluation, digests.
Where a proof needs to know something about such a parameter, the assumption is
a predicate in the contract (`Mime.Faithful`, `Joins.Faithful`,
`MimeTheorem.KnowsSample`, `DatastoreWitness.Knows`,
`LoopNode.RoundTrips`, `SheetsRun.ReadsAllRows`, `Columns.KeepsLetters`,
`MimeReader.Comes`, `SheetsTrigger.Legible`).
A service that may fail is a class whose methods choose freely whether they
fail and, for a write, whether it happened all the same.

## What the code does that one might not expect

- An e-mail with HTML only and a `text/plain` attachment reads the attachment as
  its plain text (`MimeTheorem.UnsetTextReadsAs` says exactly when), and one with
  text only and a `text/html` attachment reads back an HTML body nobody set
  (`MimeTheorem.UnsetHtmlReadsAs`). `MimeTheorem.TwoMessagesThatFail` has a
  message of each kind.
- The body of a part that has no headers is read as headers up to its first
  blank line, and without one it is lost (`MimeReader.HeaderlessIsLost`); section
  5.1 of RFC 2046 has such a part read as plain text.
- The item the trigger emits is one flat map. A heading `row_number` or
  `change_type` overwrites the label of that name, so the item no longer says
  which row it is or what happened to it (`SheetsTrigger.NumberSurvivesIff`,
  `SheetsTrigger.KindSurvivesIff`, `SheetsTrigger.OverlayLost`). The event for
  added rows puts no label at all (`SheetsTrigger.Poll`).
- A write of the data table tool with a marker directly under an empty parameter
  name is accepted with whatever other markers it has: the first place's text is
  then empty, and empty text stands for no place. Two runs of such a write can
  differ in its structure (`DatastoreWitness.AcceptedRunsDiffer`). It is the one
  way: without such a marker an accepted write is literal
  (`DatastoreWrite.AcceptedIsLiteralIff`), and in any case runs differ in the
  slots and the markers only (`DatastoreWrite.RunsAgree`).
- An upsert matched by `row_number` can overwrite a row it has just written with
  an appended one (`Sheets.RowNumberWriteLost`); matched by column it cannot
  (`Sheets.UpdateByColumn`).
- A refused update or append may already have grown the header row. When it has
  is said exactly by `SheetsRun.RefusedUpdateLeaves` and
  `SheetsRun.RefusedAppendLeaves`; `SheetsRun.RefusedUpdateGrows` and
  `SheetsRun.RefusedAppendGrows` are inputs on which it does.
- The branch of `appendValues` that starts below the header row when the shadow
  copy is shorter is never needed: a known header always lies within the copy
  (`SheetsRun.Run.AppendValues`).
- `enrichInput2` keeps the unmatched items of the left input, as `enrichInput1`
  does (`Joins.EnrichModesAgree`).
- A field written with dots off is found by reading its name only when the name
  has no dot (`Fields.UndottedIsReadIff`, and `Fields.UndottedLost` for an input).

## Model

| member | source | states |
|---|---|---|
| CalculatorTheorem.PrintedTreeEvaluates | nodes/ai.go:2616-2805 | For every expression tree, printed with brackets only where its place needs them, any blanks before its tokens and any white space around it, the evaluator answers the tree's own value or error |
| CalculatorTheorem.DerivedTextEvaluates | nodes/ai.go:2616-2805 | On every text of the grammar the evaluator answers the value of that text's derivation: left-associative sums and products, right-associative powers, the minus sign below the power |
| CalculatorTheorem.SucceedsExactlyOnDerivations | nodes/ai.go:2616-2633 | The evaluator succeeds with v exactly when the whole trimmed input has a derivation whose value is v and in range |
| CalculatorTheorem.Unambiguous | nodes/ai.go:2636-2805 | A text has at most one derivation, so "the" value of an input is well defined |
| CalculatorTheorem.DivisionErrorIff | nodes/ai.go:2677-2711 | With readable literals a tree's value is the division error exactly when some divisor in the tree evaluates to zero, and there is no other error |
| CalculatorTheorem.DivisionReportedIff | nodes/ai.go:2616-2711 | and so the evaluator, given the printed text of such a tree, reports a division error exactly when some divisor in the tree evaluates to zero, and no other error but a value out of range |
| CalculatorTheorem.BracketedIsDerivation | nodes/ai.go:2636-2805 | Adding the needed brackets to any tree gives a derivation with the same value |
| CalculatorTheorem.DerivationNeedsNoBrackets | nodes/ai.go:2636-2805 | A derivation gets no further brackets: the brackets added are only the needed ones |
| CalculatorTheorem.OperatorsCompute | nodes/ai.go:2650-2711 | The five operators between two plain numbers: each computes its own operation, a zero divisor is an error for / and for %, and only there |
| CalculatorTheorem.SignsAndPowersCompute | nodes/ai.go:2713-2745 | A sign negates or keeps, and ^ raises, on the text of plain numbers |
| CalculatorTheorem.ConstantsCompute | nodes/ai.go:2783-2805 | pi and e, in any case, stand for the two constants |
| CalculatorTheorem.LeftGrouping | nodes/ai.go:2650-2711 | Of two subtractions, or two multiplications, the first is done first |
| CalculatorTheorem.RightGrouping | nodes/ai.go:2730-2745 | Products come before sums, of two powers the second is done first, and a sign comes after a power |
| CalculatorTheorem.StrayBracketIsRefused | nodes/ai.go:2616-2633 | A closing bracket that nothing opened is refused, at its own place in the trimmed text |
| CalculatorTheorem.OpenBracketIsRefused | nodes/ai.go:2747-2764 | and an opening one that nothing closes is refused as that |
| CalculatorTheorem.BlankIsRefused | nodes/ai.go:2616-2633 | White space alone is no expression |
| CalculatorTheorem.TrimmedSpaces | nodes/ai.go:2616-2633 | The white space trimmed off is Unicode's White_Space |
| CalculatorSound.ChainSound | nodes/ai.go:2650-2711 | What the parser accepts from a position is a derivation of exactly the text it consumed, with the value it computed |
| CalculatorComplete.ChainComplete | nodes/ai.go:2650-2711 | Where a derivation's text stands, the parser finds that derivation and no other |
| CalculatorTool.CalcParser.ParseSum | nodes/ai.go:2650-2675 | The loop over + and - answers what the grammar says from the old position, and leaves the position after it and its blanks |
| CalculatorTool.CalcParser.ParseProduct | nodes/ai.go:2677-2711 | The same for *, / and %, with the division error |
| CalculatorTool.CalcParser.ParseUnary | nodes/ai.go:2713-2728 | The sign applies to a whole power |
| CalculatorTool.CalcParser.ParsePower | nodes/ai.go:2730-2745 | The exponent is a unary, so powers associate to the right |
| CalculatorTool.CalcParser.ParsePrimary | nodes/ai.go:2747-2764 | Brackets, and the two errors around them |
| CalculatorTool.CalcParser.ParseAtom | nodes/ai.go:2765-2805 | Numbers and the constants pi and e, including a lone point before a constant |
| CalculatorTool.EvaluateExpression | nodes/ai.go:2616-2633 | The parser object's whole run is the specified evaluation, error cases included |
| Base64.DecodeEncode | nodes/email.go:600-611 | Base64 (section 4 of RFC 4648) decodes back to any octets, padding included |
| Base64.EncodeAlphabet | nodes/email.go:600-611 | An encoding holds digits and padding only, so never a dash |
| Base64.TestVectors | nodes/email.go:600-611 | The test vectors of RFC 4648, section 10 |
| Base64.QuantumHoldsBits | nodes/email.go:600-611 | Four digits hold the twenty-four bits of three octets |
| Base64.DigitsAreTheAlphabet | nodes/email.go:600-611 | The digits are those of table 1 of RFC 4648, in its order |
| Base64.DecodesIff | nodes/email.go:940-948 | A text decodes exactly when it is whole quanta of digits with at most two signs of padding, at the end |
| Base64.OctetsHoldBits | nodes/email.go:940-948 | and then its octets hold the bits of its digits, less those that padding leaves out |
| MimeHeaders.HeadReads | nodes/email.go:798-829 | A header block that others wrote, its headers folded over any number of lines that end with or without a carriage return, reads as each header's lines, trimmed, with a space between; without carriage returns this holds when the body has no blank line that has them |
| MimeReader.PartsComeApart | nodes/email.go:916-932 | A multipart body divides into its parts in order, whatever stands before the first delimiter and after the closing one |
| MimeReader.PartReads | nodes/email.go:868-912 | A part of a multipart, a multipart itself or a text in any encoding, offers its texts in the order they stand |
| MimeReader.MessageSays | nodes/email.go:777-958 | Any message reads as its first plain text and its first HTML text that say something, however deep the multiparts; a quoted-printable text says what the library decodes, base64 what its digits decode to, and both the octets as they stand when they do not decode, as in any other encoding; the HTML, trimmed, stands in for a missing plain text |
| MimeReader.HeaderlessIsLost | nodes/email.go:798-829 | A part without headers, whose text holds no blank line, is read as headers throughout: its body is lost |
| MimeWritten.HeaderFound | nodes/email.go:846-855 | A header is found under its name in any case, the first of several, and nothing under a name that is not there |
| MimeWritten.LowerLetters | nodes/email.go:846-855 | Case is that of the twenty-six letters |
| MimeWritten.LineSpaceGoes | nodes/email.go:938-945 | Space, tab, carriage return and line feed are taken out of a base64 body wherever they stand, and nothing else is |
| MimeWritten.LinesAreShort | nodes/email.go:600-611 | No line of an encoded body is longer than 76 characters (section 6.8 of RFC 2045) |
| MimeWritten.HeadersComeBack | nodes/email.go:513-596 | The sender, the recipients, the copies and the reply address where there are any, the subject, date and id are found in the message built, which goes out under the type its content has |
| MimeWritten.JoinedGrows | nodes/email.go:517-524 | Recipients are joined by a comma and a space |
| MimeWritten.AttachmentsComeBack | nodes/email.go:513-596 | Split at the delimiter, the message has its body first and then its attachments in order, each with its type, name, disposition, content id and octets |
| MimeRoundTrip.ArmoredIsFree | nodes/email.go:600-611 | Nothing that begins with a dash, so no delimiter, occurs in an encoded body or across its line ends (section 5.1.1 of RFC 2046) |
| MimeRoundTrip.ArmoredDecodes | nodes/email.go:936-958 | Reading back a base64 body written in lines gives the octets (section 6.8 of RFC 2045) |
| MimeRoundTrip.OtherDelimiterIsFree | nodes/email.go:513-596 | The inner multipart's delimiters never look like the outer one's |
| MimeRoundTrip.RenderedSplits | nodes/email.go:798-829 | Splitting and reading a written entity gives back its headers and its body |
| MimeRoundTrip.SegmentsOfFramed | nodes/email.go:916-932 | Splitting a written multipart gives its parts, in order, and the closing delimiter gives none |
| MimeRoundTrip.TextPartReads | nodes/email.go:868-912 | A written text part offers exactly its contents under its own kind |
| MimeTheorem.RoundTrip | nodes/email.go:513-596 | Parsing what was built gives the bodies it was written with and then what the attachments offer, for any attachments and octets, nested or not |
| MimeTheorem.SetBodiesComeBack | nodes/email.go:777-912 | Each body that was set comes back exactly, whatever is attached |
| MimeTheorem.UnsetTextReadsAs | nodes/email.go:868-912 | Whatever is attached, a plain text that was not set reads as the first attachment posing as plain text when there is one, and only otherwise as the trimmed HTML |
| MimeTheorem.UnsetHtmlReadsAs | nodes/email.go:868-912 | An HTML body that was not set is the first attachment posing as HTML when there is one, and empty only otherwise |
| MimeTheorem.MultipartAddsNothing | nodes/email.go:868-932 | An attachment that says it is a multipart adds no body, whatever boundary it names, since its base64 holds no dash |
| MimeTheorem.AttachedTextIsRead | nodes/email.go:777-912 | A family of messages that fail: an HTML mail with a text/plain attachment reads back with the attachment as its plain text |
| MimeTheorem.AttachedHtmlIsRead | nodes/email.go:777-912 | and a text mail with a text/html attachment reads back with an HTML body nobody set |
| MimeTheorem.TwoMessagesThatFail | nodes/email.go:777-912 | One such message of each kind, which read back as the same two bodies |
| MimeIO.BuildEmailMessage | nodes/email.go:513-596 | The buffer ends up holding the specified message, part by part |
| MimeIO.Buffer.WriteBase64 | nodes/email.go:600-611 | The loop that cuts the encoding into lines appends exactly the specified block |
| MimeIO.ParseEmailHeaders | nodes/email.go:809-829 | The loop that folds continuation lines into the last header reads the specified headers |
| MimeIO.SplitMultipart | nodes/email.go:916-932 | The loop over the split body takes the specified segments and stops at the closing delimiter |
| MimeIO.Parsed.CollectBodies | nodes/email.go:868-912 | The recursive walk leaves in the parsed message exactly the specified bodies, which MimeReader.PartReads says for any part |
| MimeIO.ParseEmailMessage | nodes/email.go:777-787 | The whole reader is the specified one, which MimeReader.MessageSays says for any message |
| Order.AscendingUnique | nodes/google_sheets_write.go:152-174 | A set of keys has one ascending list, so sorting removes the map's own order |
| Order.SortKeys | nodes/google_sheets_write.go:169-173 | Keys collected in any order and sorted are that one list |
| Order.LessIff | nodes/google_sheets_write.go:169-173 | Ascending is dictionary order: texts agree up to where one ends or has the smaller character |
| Sheets.PlanWritesLastSent | nodes/google_sheets_write.go:425-480 | The batch's last write to a cell is the last item's own value that is not null among those matched to its row that send for its column, structured data as its JSON text |
| Sheets.PlanAppendsUnmatched | nodes/google_sheets_write.go:459-464 | The appended rows are the unmatched items, once each and in order, and none without upsert |
| Sheets.ColumnMatchFinds | nodes/google_sheets_write.go:402-457 | A match by column is the first row of the snapshot, at or after the first data row, whose cell reads the same |
| Sheets.ColumnMatchFindsNoneIff | nodes/google_sheets_write.go:402-457 | An item is unmatched exactly when it is automatic with nothing to match, or no row from the first data row on reads the same |
| Sheets.MatchRefusedIff | nodes/google_sheets_write.go:425-457 | An item is refused exactly when it is mapped by hand with nothing to match, or names a row number that is not a whole number of at least one |
| Sheets.NumberMatchIs | nodes/google_sheets_write.go:421-450 | Matched by number, an item goes to the row it names |
| Sheets.TextsOfValues | nodes/google_sheets_exec.go:351-369 | The text a value is matched by: nothing for null, a number as it prints, true and false, text as it is |
| Sheets.UpdateCells | nodes/google_sheets_write.go:376-504 | After a batch, however it was matched, each cell holds what an appended item's own value enters, or else what the last value sent for it enters, or else what it held: null enters nothing, structured data its JSON text, any other value itself |
| Sheets.UpdateByColumn | nodes/google_sheets_write.go:376-504 | Matched by column, a cell holds what the last item's own value sent for it enters: no appended row covers it |
| Sheets.UpdateLeavesAlone | nodes/google_sheets_write.go:376-504 | The match column, row_number, the columns without a heading and, matched by column, the rows above the first data row are not touched |
| Sheets.RowNumberWriteLost | nodes/google_sheets_write.go:421-504 | A concrete upsert by row number whose written value is overwritten by an appended row |
| Sheets.RowNumberWriteSurvivesIff | nodes/google_sheets_write.go:421-504 | A cell written by row number ends with what was sent exactly when no appended row lands on its row, or the appended item's own value enters the same |
| Sheets.CarriedAt | nodes/google_sheets_write.go:482-496 | One cell after the batch and the appended rows, for any plan |
| SheetsRun.UpdateMeans | nodes/google_sheets_write.go:376-504 | The same end to end for every cell of every update, matched by column or by row number: from what the sheet held when the run began, through header growth, to what the items' own values enter |
| SheetsRun.UpdateEnters | nodes/google_sheets_write.go:376-504 | and, said of the incoming items: a cell below the header holds what the last item to give a value for it gives, a null mapped by hand clears it, a null field leaves it, and a cell that none gives a value for holds what it held |
| SheetsRun.UpdateEmits | nodes/google_sheets_write.go:498-504 | What an update emits: the items as they came when the first is mapped automatically, nothing when it does not append and no item gives anything for a row, and else the values sent |
| SheetsRun.AppendedComeOut | nodes/google_sheets_write.go:325-372 | What an append emits: the items as they came when the first is mapped automatically, and else the values sent |
| SheetsRun.AppendEnters | nodes/google_sheets_write.go:339-372 | An appended row holds, under each heading, what the item's own value enters, and nothing where it gives none |
| SheetsRun.InsertedColumns | nodes/google_sheets_write.go:152-174 | Columns are added only when the setting asks for it, exactly those that automatic items bring, in dictionary order after the others |
| SheetsRun.ColumnsRefusedIff | nodes/google_sheets_write.go:179-214 | The three refusals of columns, by what the items bring, in the order they are tried |
| SheetsRun.NothingMappedIff | nodes/google_sheets_write.go:98-118 | The data is refused exactly when an item mapped by hand maps nothing, and the first such item is named |
| SheetsRun.UpdateLeaves | nodes/google_sheets_write.go:376-504 | End to end, the match column, row_number, the columns without a heading and, matched by column, the rows above the first data row hold what they held, but for the names of a grown header |
| SheetsRun.AppendMeans | nodes/google_sheets_write.go:339-372 | An append puts the items below every used row, in order, each cell with what the item's own value enters, and touches no other cell of the sheet but those of a grown header |
| SheetsRun.SettledChangesHeaderRow | nodes/google_sheets_write.go:218-240 | Growing the header writes the header row and nothing else |
| SheetsRun.SettledIsSound | nodes/google_sheets_write.go:218-240 | After it, every used row is known and a header lies within the rows known |
| SheetsRun.Run.Values | nodes/google_sheets_exec.go:322-342 | A read answers what the grid would, from the cache or not, and keeps the cache true |
| SheetsRun.Run.EnsureGrid | nodes/google_sheets_write.go:243-270 | The grid grows by exactly what is missing, no tab is believed larger than it is, every cached range stays true, and it fails exactly when a call fails |
| SheetsRun.Run.PutValues | nodes/google_sheets_write.go:272-277 | A write empties the cache even when it fails |
| SheetsRun.Run.GrowHeader | nodes/google_sheets_write.go:218-240 | The shadow copy gets the new header in place, in a slice the cache had held, and every cached range is still true; a failure leaves the shadow copy and its header as they were |
| SheetsRun.Run.PlaceRow | nodes/google_sheets_write.go:234-237 | Extending and overwriting the slice, in place or in a new array, gives the rows with the header row replaced |
| SheetsRun.Run.PrepareColumns | nodes/google_sheets_write.go:179-214 | The columns are settled or refused for the specified reason, and after a refusal the cells are exactly those of the specification |
| SheetsRun.Run.AppendValues | nodes/google_sheets_write.go:283-311 | Rows go right below what is known, the range is inside the grid, and the shadow copy covers every used row even when the call failed |
| SheetsRun.Run.AppendRows | nodes/google_sheets_write.go:339-372 | The whole append is the specified one with the specified items coming out, or the specified refusal with exactly the cells it leaves behind; it reports a failed call exactly when one failed |
| SheetsRun.RefusedAppendLeaves | nodes/google_sheets_write.go:179-240 | A refused append leaves the sheet as it was exactly when the header was not written or every name stood there already; the one refusal that can come after is that of an unknown column |
| SheetsRun.RefusedAppendGrows | nodes/google_sheets_write.go:179-240 | An append that is refused for an unknown column with a new heading already written |
| SheetsRun.Run.UpdateRows | nodes/google_sheets_write.go:376-504 | The whole update is the specified one, or the specified refusal with exactly the cells it leaves behind; it reports a failed call exactly when one failed |
| SheetsRun.RefusedUpdateLeaves | nodes/google_sheets_write.go:376-470 | A refused update leaves the sheet as it was exactly when the header was not written or every name stood there already; the refusals that can come after are those of unknown columns, of the match column and of matching |
| SheetsRun.RefusedUpdateGrows | nodes/google_sheets_write.go:398-419 | An update refused for an unknown match column with a new heading already written |
| SheetsRun.PlanFailsOnMatching | nodes/google_sheets_write.go:425-457 | A plan fails only on an item with nothing to match, or a row number that is none |
| SheetsRun.Run.ReadContext | nodes/google_sheets_write.go:32-77 | The shadow copy and the header are what the sheet holds |
| SheetsRun.WriteContext.ReadHeader | nodes/google_sheets_write.go:69-77 | The header is the texts of the header row, none when the sheet does not reach it |
| SheetsRun.Append | nodes/google_sheets_write.go:234-236 | Appending to a slice, in place or in a new array, never changes what the slice held |
| SheetsRun.Run.MakeMatcher | nodes/google_sheets_write.go:402-419 | The keys are the match column's texts from the first data row on |
| SheetsRun.MakePlan | nodes/google_sheets_write.go:425-480 | The loop over items and columns makes the specified plan or the specified refusal |
| SheetsRun.CollectExtra | nodes/google_sheets_write.go:152-174 | The new columns are the unknown keys of the automatic items, in dictionary order, however the maps give them out |
| DatastoreRule.StructureMarkersExact | nodes/datastore.go:1164-1225 | The walk lists exactly the outermost expression markers outside the value slots and the tool's name and description |
| DatastoreRule.MarkersOnce | nodes/datastore.go:1205-1225 | and lists none twice |
| DatastoreRule.ExpressionsOutside | nodes/datastore.go:1205-1225 | The recursive walk appends the paths of the specified markers, in key order, whatever the map iteration |
| DatastoreRule.StructureExpressions | nodes/datastore.go:1164-1189 | and so does the walk over all parameters |
| DatastoreRule.StructureExpression | nodes/datastore.go:1149-1154 | The place a refusal names is the first one listed, and empty text when none is |
| DatastoreRule.FirstIsUnnamedIff | nodes/datastore.go:1149-1225 | There is a first place and its text is empty exactly when a marker is directly under the empty parameter name |
| DatastoreTool.FindsNothingIffLiteral | nodes/datastore.go:1164-1316 | The walk and the search for calls find nothing exactly in the parameters that are literal outside the slots |
| DatastoreTool.LetThroughIsLiteralIff | nodes/datastore.go:1101-1107 | The guard, which looks at the text of the first place and at the calls, lets a write through with a literal structure exactly when no marker is directly under the empty parameter name |
| DatastoreTool.LetThroughIsQuiet | nodes/datastore.go:1239-1316 | Whatever markers it has, a write that is let through calls $fromAI in no plain string outside its slots and markers |
| DatastoreValues.LetThroughCallsNothing | nodes/datastore.go:1239-1316 | and it calls $fromAI in no parameter as a whole, expressions included, and within columns and filters only in mapped values and in what conditions compare with |
| DatastoreValues.CallsIff | nodes/datastore.go:1240-1243 | A subtree calls exactly when some text in it, or some body of an expression in it, does not scan or holds a call |
| DatastoreTool.RefuseStructureFromAI | nodes/datastore.go:1239-1316 | The search names the first structure part, in sorted order, that calls $fromAI, and none exactly when there is none |
| DatastoreTool.RefuseFilters | nodes/datastore.go:1278-1308 | The same inside filters: every part but a condition's keyValue |
| DatastoreTool.RefuseColumns | nodes/datastore.go:1257-1277 | The same inside columns: every part but a mapped column's value |
| DatastoreValues.SlotIff | nodes/datastore.go:1164-1189 | The value slots are the tool's name and description, columns.value.<column> and filters.conditions[i].keyValue, and no other place |
| DatastoreValues.RefusedPartCalls | nodes/datastore.go:1239-1316 | The part a refusal names calls $fromAI, is in no value slot of columns or filters, and goes by its own path |
| DatastoreValues.PathsAreWritten | nodes/datastore.go:1205-1225 | How the paths of parameters, columns and filters are spelled |
| DatastoreValues.RowsAreWritten | nodes/datastore.go:1278-1308 | and those of conditions |
| DatastoreWrite.AcceptedIff | nodes/datastore.go:1084-1128 | What a save accepts, said of the parameters: rows alone, one of five operations, something to write for an update or an upsert, the guard for whatever names a write, and the step's own rules |
| DatastoreWrite.WritesAreGuarded | nodes/datastore.go:1037-1107 | A tool that names update, upsert or delete, or names insert and has something to write, performs the operation it names and is accepted only if the guard lets it through; any other accepted tool gets rows |
| DatastoreWrite.MarkersAreRefused | nodes/datastore.go:1094-1103 | A tool that names a write and has a first place with a text is refused, and told that place unless an earlier check refused it |
| DatastoreWrite.BuildTool | nodes/ai.go:3597-3661 | The agent builds a tool exactly when its parameters, over the table it is bound to, are accepted and perform the operation its descriptor claims |
| DatastoreWrite.RunsUnderItsName | nodes/datastore.go:1744-1755 | A write that was built runs on rows, on the table it is bound to and under the operation its author named |
| DatastoreWrite.CheckOperation | nodes/datastore.go:1084-1128 | A tool is accepted exactly when its resource, operation and values are right and, for a write, the guard lets it through; a refused write is told the first place's text unless that is empty, or else the first call |
| DatastoreWrite.AcceptedIsLiteralIff | nodes/datastore.go:1084-1154 | An accepted tool that names a write has a literal structure exactly when no marker is directly under the empty parameter name |
| DatastoreValues.StructureIsLiteral | nodes/datastore.go:1094-1119 | and then it holds no expression and no call at any place outside the slots |
| DatastoreWrite.OnlyDeclaredCross | nodes/datastore.go:1705-1721 | Only keys declared through $fromAI cross, each with the value supplied for it, checked, or its own default |
| DatastoreValues.DeclaredCross | nodes/datastore.go:1705-1721 | and a declared key that is supplied crosses with the value supplied, one that is not when its call has a default |
| DatastoreValues.ArgumentsRefusedIff | nodes/datastore.go:1786-1808 | The model's arguments are refused exactly when one that is declared and supplied is not of its call's type, or as JSON holds an expression |
| DatastoreValues.HoldsMarkerIff | nodes/tool_fromai.go:90-128 | JSON holds an expression exactly when some place in it is one |
| DatastoreValues.EnvHolds | nodes/datastore.go:1733-1743 | An expression reads the arguments that crossed, and as its item only those that columns declares |
| DatastoreValues.PlaceBecomes | nodes/datastore.go:1722-1755 | Each place that the author's maps and lists lead to holds in a run what its own content becomes: a text without calls itself, a text that is one call its argument, another text the text filled in, an expression its value |
| DatastoreValues.SlotGetsArgument | nodes/datastore.go:1694-1755 | so a slot left to the model holds the value it supplied, whatever that is |
| DatastoreWrite.InvokeWrite | nodes/datastore.go:1694-1755 | The arguments are checked, filled in, pinned and resolved as specified, or the run is refused |
| DatastoreWrite.QuietRunsAgree | nodes/tool_fromai.go:90-128 | A tree without calls outside its slots and markers, filled and resolved with any two argument sets that pass the fill check, agrees everywhere else |
| DatastoreWrite.RunsAgree | nodes/datastore.go:1694-1755 | Any two runs that go through of a tool that was built and names a write, whatever the model's arguments, have the same content at every place that is in no value slot and in no marker the walk lists |
| DatastoreWrite.ModelSuppliesOnlyValues | nodes/datastore.go:1694-1755 | and so, when no marker is directly under the empty parameter name, at every place that is in no value slot |
| JsonValues.ShapesTell | nodes/datastore.go:1694-1755 | What has one content at every place is one value, so content at places is all there is |
| DatastoreWitness.AcceptedRunsDiffer | nodes/datastore.go:1101-1107 | A delete with such a marker that is accepted although its structure is not literal, and two runs of it that differ at match, which is in no value slot |
| DatastoreWitness.SomeLibraryKnows | nodes/datastore.go:1694-1755 | and what that input takes for granted of the scanner and the evaluator can be had |
| DatastoreWrite.MappingTurnedExpressionIsRefused | nodes/tool_fromai.go:90-93 | Two mapped columns named mode and value, filled by the model, would make the mapping an expression; the fill check refuses that run |
| DatastoreWrite.RunsByKey | nodes/datastore.go:1744-1755 | A run treats each parameter by itself and pins the resource, the operation and the table |
| Fields.ItemPath | nodes/conditions.go:120-134 | The loop reads what the path denotes, or nil |
| Fields.PutThenGet | nodes/executors.go:426-442 | After a write, reading the path, or below it, gives the written value |
| Fields.PutElsewhere | nodes/executors.go:426-442 | A write is not seen from any path that is neither above nor below it, even where it replaced an ancestor that was not an object |
| Fields.PutTwice | nodes/executors.go:426-442 | The later of two writes to a path wins |
| Fields.PutBackIff | nodes/executors.go:426-442 | A write changes nothing exactly when the path is there and holds that value |
| Fields.PutsCommute | nodes/executors.go:426-442 | Writes to paths that are apart may be done in either order |
| Fields.UndottedIsReadIff | nodes/executors.go:426-430 | Written with dots off, a name read back as a path gives the written value exactly when it has no dot or the path held that value already; with a dot the reading does not see the write |
| Fields.SplitUndotted | nodes/executors.go:427-430 | A name without a dot is the one piece, so skipping the split changes nothing |
| Fields.UndottedLost | nodes/executors.go:426-430 | A concrete write: a.b with dots off into an item without fields, which reading a.b does not find |
| Fields.JoinSplit | nodes/executors.go:431 | Splitting a name at its dots loses nothing, so different names are different paths |
| SetNode.Store.WriteField | nodes/executors.go:426-442 | The loop over nested maps leaves the map standing for the written value, and touches only the maps of that tree and new ones |
| SetNode.WriteHolds | nodes/executors.go:431-442 | The same for the sequence of map updates, by induction on the path |
| SetNode.Store.Clone | nodes/executors.go:800-821 | A clone stands for the same value and shares no map with anything that existed before |
| SetNode.Store.SetItem | nodes/executors.go:306-346 | The built item is the surviving fields with the assignments in order, and no map that existed before, the incoming item's included, is changed |
| SetNode.Store.SetRaw | nodes/executors.go:315-329 | The same for the raw mode: the surviving fields with the body's over them |
| SetNode.AssignmentReads | nodes/executors.go:336-346 | An assignment reads back as its value unless a later one is at, above or below its path |
| SetNode.UnassignedReads | nodes/executors.go:336-346 | A path that no assignment is at, above or below reads as in the fields that survived |
| SetNode.UndottedAssignmentReads | nodes/executors.go:336-346 | With dots off a name holds the last value assigned to it |
| SetNode.UndottedUnassigned | nodes/executors.go:336-346 | and one that nothing is assigned to what survived of it |
| SetNode.SurvivesIff | nodes/executors.go:372-400 | All the incoming fields survive, none, exactly those named, or exactly those not named |
| Joins.MatchKey | nodes/executors.go:681-695 | The key is the NUL-joined encodings of the fields, or none when a field is missing, null or cannot be encoded |
| Joins.JoinNulInjective | nodes/executors.go:694 | Equally many NUL-free parts joined with NULs stay apart |
| Joins.KeysAgreeIffMatch | nodes/executors.go:681-695 | Two items have one key exactly when they hold equal values in every field |
| Joins.JoinOnFields | nodes/executors.go:612-676 | The indexed join is the join of every left item with every right item, in left-major order, in every mode |
| Joins.MatchesIff | nodes/executors.go:681-695 | Items match when every field's path holds one and the same value in both, which is not null and can be encoded |
| Joins.MissingFieldMatchesNothing | nodes/executors.go:684-692 | An item without a value at one of the fields matches nothing, on either side |
| Joins.ModesKeep | nodes/executors.go:623-675 | Keeping matches gives merged partners alone; keeping the others gives exactly the items without a partner |
| Joins.EverythingIsMatchesAndNonMatches | nodes/executors.go:623-675 | As multisets keepEverything is keepMatches and keepNonMatches together |
| Joins.LeftRepresented | nodes/executors.go:648-665 | Keeping everything, each left item is there: merged with every partner, or as it was |
| Joins.RightRepresented | nodes/executors.go:666-674 | and so is each right item |
| Joins.EnrichModesAgree | nodes/executors.go:623-675 | enrichInput2 gives what enrichInput1 does, item for item: the matches and the unmatched left items, which is keepEverything without the unmatched right items |
| Joins.MergeItems | nodes/executors.go:702-718 | Later items win field by field, and a merged item claims no correspondence |
| Joins.MergeByFields | nodes/executors.go:601-610 | Several inputs are joined from left to right |
| Joins.JoinsInTurn | nodes/executors.go:601-610 | One input is itself, and each further one is joined on the right of those before it |
| LoopNode.NodeState.ExecuteLoop | nodes/loop.go:98-153 | One invocation: the next batch and its state, or done with the state cleared, or the limit's error with the state as it was |
| LoopNode.RunLoop | nodes/loop.go:98-194 | A whole loop around any body: it succeeds exactly when the batches fit the limit; then the batches are the items cut up in order, done is what the body returned in order, and the state is clear |
| LoopNode.BatchesIsCeiling | nodes/loop.go:143-147 | The number of batches is the number of items over the batch size, rounded up |
| LoopNode.SettingsMean | nodes/loop.go:98-112 | A setting of at least one is rounded down; without one a batch holds one item and a loop has a hundred batches |
| LoopNode.CheckpointKeepsState | nodes/loop.go:201-218 | A checkpoint of the state, decoded from JSON, loses nothing |
| LoopNode.DecodeEncoded | nodes/loop.go:158-185 | The state read back is the state stored |
| ImapPoller.Poll | nodes/email.go:650-727 | One poll, with the mailbox changing between any two commands, is a tick as specified: a baseline, a failure that keeps the cursor, or the lowest UIDs above the watermark; it fails exactly when a command failed |
| ImapPoller.SearchUidsAfter | internal/mail/imap.go:158-178 | The search gives exactly the UIDs above the watermark, although the server also names the highest message |
| ImapPoller.EmittedOnce | nodes/email.go:690-726 | A message is emitted by at most one successful poll, and once within it |
| ImapPoller.WatermarkMonotone | nodes/email.go:690-726 | The watermark never goes back |
| ImapPoller.NoneSkipped | nodes/email.go:690-726 | No message above the baseline that is still there when a poll searches is skipped: it has been emitted or is still above the watermark |
| ImapPoller.BacklogDrains | nodes/email.go:698-726 | Whatever arrives meanwhile, k successful polls take 20k messages off a backlog, or all of it |
| ImapPoller.TakesTwentyOrAll | nodes/email.go:690-726 | A poll that goes through emits the lowest UIDs above the watermark, in order: twenty, or all when there are fewer |
| ImapPoller.WatermarkMoves | nodes/email.go:683-726 | Where a poll leaves its watermark: at the last of a batch of twenty, else at the top the mailbox had unless it was or got past it; a first poll and one of a recreated mailbox at that top, with nothing emitted |
| ImapPoller.BaselineStartsWatching | nodes/email.go:683-688 | A first poll, or one of a recreated mailbox, emits nothing and starts from the mailbox's top |
| ImapPoller.PollOnAndOn | nodes/email.go:650-727 | Polling repeatedly makes a run of the kind the lemmas speak of, and from a watermark no message comes out twice |
| GmailPoller.Poll | nodes/gmail.go:412-517 | One tick, by what Gmail answers: which history it asks for, what it emits, remembers and goes on from (the id the history answered, the cursor's own after a listing), and when it fails and changes nothing |
| GmailPoller.Remember | nodes/gmail.go:493-517 | The loop emits the ids not remembered, each once, and remembers the last two hundred |
| GmailPoller.WindowKept | nodes/gmail.go:444-517 | After every tick the remembered ids are distinct and at most two hundred; what a tick emits is distinct and was not remembered |
| GmailPoller.RepeatsAreFarApart | nodes/gmail.go:478-517 | Between two emissions of one id there are two hundred of other ids, all different |
| GmailPoller.RemembersTheEnd | nodes/gmail.go:444-517 | What is remembered is the end of everything remembered or emitted so far |
| GmailPoller.PollOnAndOn | nodes/gmail.go:412-517 | However Gmail answers, polling repeatedly emits no id twice within two hundred, remembers the end of what it emitted, and reads each history from the id the last history read answered |
| SheetsTrigger.Poll | nodes/google_sheets_trigger.go:92-281 | One tick: nothing on the first, an error that keeps the cursor past the row cap or without a header, and otherwise exactly the rows the event reports and the new cursor |
| SheetsTrigger.PollTwice | nodes/google_sheets_trigger.go:92-281 | Two ticks over a sheet, before and after: one item for each row the event is for and no other, in row order, with that row's cells under their headings, its number and its kind. A row kept is for an update exactly when what is watched of it reads otherwise; a row that held nothing is added |
| SheetsTrigger.ReportsIff | nodes/google_sheets_trigger.go:239-265 | The same of one row: any update reports rows that were not there or read otherwise, row updates those that were there and read otherwise, row additions those below every earlier row |
| SheetsTrigger.FingerprintsAgreeIff | nodes/google_sheets_trigger.go:361-386 | Two rows of readable cells have one fingerprint exactly when they read alike in what is watched, unless the digest takes two texts for one |
| SheetsTrigger.HashedInjective | nodes/google_sheets_trigger.go:363-366 | What is digested tells texts without the separator apart: how many there are and each of them |
| SheetsTrigger.FieldNameIs | nodes/google_sheets_trigger.go:266-271 | A column goes by its heading, and one without by where it stands, from one |
| SheetsTrigger.LiveRowIff | nodes/google_sheets_trigger.go:188-207 | The rows watched are exactly those from the first data row on that hold something, each under its own sheet row number |
| SheetsTrigger.ReportsOnlyRows | nodes/google_sheets_trigger.go:239-279 | Every emitted item is that of a row the event reports |
| SheetsTrigger.ReportsInOrder | nodes/google_sheets_trigger.go:239-279 | Of two emitted items the earlier is that of an earlier row, so no row is reported twice |
| SheetsTrigger.ReportsEveryRow | nodes/google_sheets_trigger.go:239-279 | Every row the event reports is emitted |
| SheetsTrigger.ColumnsOverLabels | nodes/google_sheets_trigger.go:239-279 | An emitted item is one flat map: under a name it holds the cell of the last column so named, empty text when the row is short, and a label only when no column has its name |
| SheetsTrigger.LabelSurvivesIff | nodes/google_sheets_trigger.go:239-279 | A label is what the item says exactly when no heading has its name, or the cell that took its place is the same |
| SheetsTrigger.NumberSurvivesIff | nodes/google_sheets_trigger.go:239-279 | For any update every item says its row's number, whatever the row holds, exactly when no heading is row_number |
| SheetsTrigger.NumberHidden | nodes/google_sheets_trigger.go:239-279 | With such a heading over cells of text, the item says no row number at all |
| SheetsTrigger.KindSurvivesIff | nodes/google_sheets_trigger.go:239-279 | and it says whether the row was added or updated, exactly when no heading is change_type |
| SheetsTrigger.EventsPartition | nodes/google_sheets_trigger.go:241-265 | Rows added, rows updated and gaps filled are apart and together are what any update reports |
| SheetsTrigger.OverlayStep | nodes/google_sheets_trigger.go:189-281 | After a tick of any update, the old fingerprints overlaid with the emitted items, by the row number each item says, are the current ones of every live row |
| SheetsTrigger.OverlayHoldsIff | nodes/google_sheets_trigger.go:189-281 | and that can be relied on, whatever the sheet holds, exactly when no heading is row_number |
| SheetsTrigger.OverlayLost | nodes/google_sheets_trigger.go:92-281 | Two polls of a sheet with such a heading, between which a row of texts is added: the row is emitted, and the overlay lacks it |
| SheetsTrigger.PollOnAndOn | nodes/google_sheets_trigger.go:92-281 | Over any run of ticks, those that fail at the row cap or for want of a header included, the baseline overlaid with what Poll emitted has the current fingerprint of every live row, and the last item shown for a row is that of a row of its number and current fingerprint |
| SheetsTrigger.NothingReported | nodes/google_sheets_trigger.go:233-237 | A sheet that reads as its cursor says has nothing to report, so the shortcut is right |
| SheetsTrigger.RowFingerprint | nodes/google_sheets_trigger.go:361-386 | The fingerprint is the digest of the watched cells' texts, or of all without the empty ones at the end |
| SheetsTrigger.TrailingEmptyCells | nodes/google_sheets_trigger.go:367-371 | Empty cells at the end of a row do not change its fingerprint |
| SheetsTrigger.UnwatchedCells | nodes/google_sheets_trigger.go:375-382 | Neither do the cells of columns that are not watched |
| DetectRows.DetectDataRows | nodes/google_sheets_exec.go:522-583 | The code finds the specified table |
| DetectRows.Compact | nodes/google_sheets_exec.go:572-582 | Compacting the slice while it is being read keeps the first row and then the non-empty rows, or those up to the first empty one |
| DetectRows.EveryCellIsThere | nodes/google_sheets_exec.go:522-583 | Reading to the last row, every cell that holds something is in the table under its own row number and column |
| DetectRows.OnlyRowsInOrder | nodes/google_sheets_exec.go:522-582 | and the table holds nothing but non-empty rows of the sheet, rows and columns both in the sheet's order |
| DetectRows.StopsAtFirstEmpty | nodes/google_sheets_exec.go:566-582 | Stopping at the first empty row, the table is the first unbroken block of rows |
| DetectRows.KeptIff | nodes/google_sheets_exec.go:527-545 | A column is dropped exactly when its heading is explicit empty text and no row below has data in it |
| DetectRows.DroppedIff | nodes/google_sheets_exec.go:527-545 | The same said of the cells: an empty text in the first row, and below it missing, null or empty text |
| DetectRows.NarrowedCell | nodes/google_sheets_exec.go:546-565 | Each row of the table is the sheet's row in the kept columns, with empty text where the row is short |
| DetectRows.WidthIsLongest | nodes/google_sheets_exec.go:524-530 | The table is as wide as its longest row |
| DetectRows.EmptyIff | nodes/google_sheets_exec.go:566-571 | A row is empty when every cell is null or empty text |
| DetectRows.NarrowedEmptyIff | nodes/google_sheets_exec.go:546-565 | Dropping columns makes no row empty that was not |
| Columns.ValueOfSpelled | nodes/google_sheets_exec.go:238-261 | Every column number is the value of its letters |
| Columns.SpelledOfValue | nodes/google_sheets_exec.go:238-261 | Every upper-case letter string is the letters of its value |
| Columns.SpelledAsOnASheet | nodes/google_sheets_exec.go:238-244 | The letters are those of a spreadsheet: Z, then AA; ZZ, then AAA |
| Columns.LettersAreCapitals | nodes/google_sheets_exec.go:248-261 | A letter is one of the twenty-six capitals |
| Columns.ColLetters | nodes/google_sheets_exec.go:238-244 | The loop spells the index, counted from one |
| Columns.ColNumber | nodes/google_sheets_exec.go:248-261 | The loop values the letters, and answers 0 for anything else |
| Columns.IndexThereAndBack | nodes/google_sheets_exec.go:238-261 | From an index to letters and back gives the index plus one |
| Columns.LettersThereAndBack | nodes/google_sheets_exec.go:238-261 | From letters to a number and back gives the letters |
| DeltaCoalescer.Relay | nodes/ai.go:1653-1680 | For any events and any clock, what comes out reads as what went in once adjacent deltas are merged and empty ones dropped, and every delta that comes out has the model and the iteration of one that went in |
| DeltaCoalescer.Coalescer.Emit | nodes/ai.go:1653-1665 | One event keeps emitted text plus pending text equal to the input so far; within the interval a delta publishes nothing, after it what is pending under its own model and iteration, and another event publishes what was pending before itself |
| DeltaCoalescer.Coalescer.Flush | nodes/ai.go:1670-1680 | A flush publishes what is pending, once, and nothing when there is none |
| DeltaCoalescer.TextKept | nodes/ai.go:1653-1680 | Merging keeps every character of the deltas, in order |
| Escaper.EscapeKeepingEscapes | nodes/http.go:757-779 | The index loop builds the specified escaping |
| Escaper.EscapeOf | nodes/http.go:775 | A byte's escape is a percent sign and the two upper-case digits of its value |
| Escaper.AllowedAreTheUrlCharacters | nodes/http.go:806-817 | What a query may hold is the unreserved and reserved characters of RFC 3986, but for the number sign |
| Escaper.HexDigitIff | nodes/http.go:757-779 | A hexadecimal digit is a decimal digit or a letter up to f in either case |
| Escaper.HexDigitStandsFor | nodes/http.go:757-779 | and stands for its value |
| Escaper.EscapesAreWritten | nodes/http.go:775 | The digits of an escape, and two escapes written out |
| Escaper.EscapedIsWellFormed | nodes/http.go:757-779 | The output is allowed bytes and well-formed escapes, for every input (section 2.1 of RFC 3986) |
| Escaper.UnchangedIffWellFormed | nodes/http.go:757-779 | Escaping leaves alone exactly the well-formed strings |
| Escaper.Idempotent | nodes/http.go:757-779 | Escaping twice is escaping once (section 2.4 of RFC 3986) |
| Escaper.DecodesTheSame | nodes/http.go:757-779 | The output decodes to what the input decodes to |

## Left out

- SMTP, IMAP, HTTP and Google transport, credentials, timeouts and outbound policy: calls into services. The mailbox, the grid and Gmail's answers are abstract state.
- E-mail metadata, RFC 2047 words and the spelling of the other header values: only the bodies are read back. Case folding is modelled for ASCII, and a string stands for octets, one character each.
- Quoted-printable decoding, media-type parsing, trimming and quoting: functions of the `Mime.Library` parameter, since the standard library's code is not part of this model.
- CalculatorTheorem.DivisionErrorIff: assumes, as DivisionReportedIff does, that every literal in the tree is a readable number, because an unreadable one is an error of its own.
- MimeReader.MessageSays: assumes that each delimiter stands only where parts are divided, that a multipart and its parts end their lines with carriage returns, and that a part has headers; a part without any is `MimeReader.HeaderlessIsLost`.
- MimeTheorem.RoundTrip: assumes header values without line breaks and attachment headers that do not hold the outer delimiter; the sending node checks the former of senders, subject and recipients, but not of an attachment's media type or property name. Boundaries are fresh tokens, as the random source gives them.
- Changes other people make to a sheet while a node runs: the grid changes only through the run's own calls.
- The `useAppend` call, the refusals that are special to tool calls, cell formats, deleting and clearing: they add cases and no depth.
- The NUL-joined cache key of a Sheets read: a key is the triple of range and render options, so two readings that join to one text are not modelled.
- SheetsRun.Run.UpdateRows: the cell batch of a failed call may have been carried out in part, so nothing is said about the cells after `CallFailed`.
- The expression evaluator, the scanner for `$fromAI` calls, and the step node's own rules: functions of the `DatastoreRule.Library` parameter. Reading a tool's table runs a different schema and is not modelled.
- DatastoreWrite.ModelSuppliesOnlyValues: speaks of runs that go through; which error a refused run reports may depend on the arguments. Maps are values here, so whether the tool's own template is copied is not captured.
- Attachments of Set items, conversion of assignment types, and a JSON body given as text: the values arrive converted. Lists are values that are never written into, as in the code.
- Reading rows into items and filtering them (`readFor`, `matchFilters`) beyond finding the table: plain loops over what was found.
- Joining by position and by cross product: plain nested loops.
- Joins.JoinOnFields: rests on an encoding that is injective and free of NUL, which JSON is for valid Unicode text.
- LoopNode.NodeState.ExecuteLoop: cancellation and a runtime without node state are errors before the code modelled.
- ImapPoller.Poll: UIDs are unbounded, so the 32-bit wrap of the search's lower end is not modelled; the server's answer is taken to be ascending and complete (section 2.3.1.1 of RFC 9051). A message whose fetch always fails keeps every poll from succeeding, so the drain lemma counts successful polls.
- GmailPoller.WindowKept: the baseline listing is taken to name each message once and at most a window of them; the listing asks for 25.
- The headings a trigger watches, the second read of a header that is not text, and the digest of the settings: a run has unchanged settings.
- SheetsTrigger.PollTwice: assumes that no cell's text holds the separator, and that a cell which is not empty shows some text; a pair of rows that the digest takes for one is not reported, as `SheetsTrigger.Collide` says.
- SheetsTrigger.PollOnAndOn: the overlay is that of the event that reports any update; a tick whose call to Google fails is not one of its steps, and changes nothing. A row number is a float in the emitted item, exact for every number a sheet can have.
- Columns.ColNumber: numbers are unbounded, so the overflow of a very long text is not modelled.
- Model calls, agents, vector search, SQL nodes, date and time, node definitions and single-field validators.
