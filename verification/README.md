# RustyNzb metadata parser, modelled in Dafny

RustyNzb downloads a binary posted to Usenet in many articles. An NZB
document describes that binary. This project models the part that reads the
NZB document:

- an XML event stream is turned into a list of file records;
- each file record holds a filename, the groups it was posted to, and its segments;
- each segment holds a size (`bytes`), a position (`number`) and an article id.

The repository has two versions of this parser, and both are modelled:

- **`Parser`** models the newer parser (`src/parser/mod.rs`). Its records and
  builders are in **`Entities`** (`src/parser/entities.rs`). A segment builder
  and a file builder collect fields one event at a time. A flag records
  whether the parser is inside a `group` element. A text node becomes either an
  article id or a group name.
- **`Legacy`** models the older parser (`src/lib.rs`), which the crate
  actually compiles. It builds each segment at its start tag and never reads
  text nodes.

Both parsers are a pure `Step` function from a state and one reader event to
either a new state or a final outcome. `Feed` folds `Step` over a list of
events, and `Parse` runs `Feed` from the initial state. A builder is a record
of `Option` slots. Its operations return the new builder. `Create` returns
the builder after the call together with either the finished record or an
error.

The other modules are shared:

- **`Events`** holds the event vocabulary.
- **`Tags`** holds the attribute loops over `file` and `segment` start tags,
  which both parsers use in the same form.
- **`Text`** holds splitting on a character, filename extraction from a
  subject, and `u32` parsing.
- **`Common`** holds `Option`, `Result`, the error kinds and the parse outcome.
- **`Document`** writes a well-formed NZB document out as the events a reader
  produces for it. The round-trip lemmas use it.

Modelling decisions:

- The input is an already tokenised list of events. The events are
  `Start(name, attributes, decoded)`, `End(name)`, `Text(text)`, `Eof`,
  `Malformed` and `Other`.
  - An attribute value or a text node that the reader could not unescape is
    `None`.
  - An attribute the reader rejects is `MalformedAttribute`. This includes a
    key repeated within one tag, which the reader's attribute iterator
    refuses by default. So a second `subject` on one `file` tag aborts the
    parse, and the "last `subject` wins" clauses below only apply to attribute
    lists the reader would not produce.
  - `decoded` is the result of unescaping the start tag's own content, which
    is its name and its attributes as written. It is `None` if that fails.
  - `Other` stands for empty elements, CDATA, comments, declarations,
    processing instructions and doctypes. Both parsers ignore all of them,
    including a self-closing `<segment .../>`.
  - A list that ends without `Eof` is treated as if `Eof` followed, because
    the reader keeps returning `Eof` once its input is used up.
- A reader error makes both parsers panic. This is modelled as its own
  outcome, `Panicked`, next to `Parsed(files)` and `Failed(error)`.
- All failures abort the whole parse, so neither outcome carries a partial
  list of files.
- `str::parse::<u32>` is modelled exactly as `Text.ParseU32`: an optional
  single `+`, then one or more ASCII digits, with a value below 2^32.
- The newer parser as written does not compile:
  - `src/lib.rs` never declares the module.
  - `add_group` is called but never defined.
  - A `usize` is passed to `set_bytes(u32)`.

  The model uses `u32` for `bytes`. The records in
  `src/parser/entities.rs` have no place for groups, so the model adds a
  list of groups to both the file builder and the file record:
  - `AddGroup` appends to the list.
  - `Create` moves the list into the file and empties the builder.
  - Nothing checks the groups.
- `create` checks only that a filename is set, so an empty filename (from a
  subject `""`) and a file with no groups are both accepted. The model
  follows the code.
- The `debug!` call at `src/parser/mod.rs:68` unescapes the text node, and
  that call can fail. The `log` macros evaluate their arguments only when
  debug logging is enabled. The model assumes logging is disabled, so a text
  node that cannot be unescaped aborts the parse only where it is used: as an
  article id or as a group name.

## Model

| member | source | states |
|---|---|---|
| Text.Split | src/parser/mod.rs:28 | `str::split` on one character: there is at least one piece, and no piece contains the separator |
| Text.JoinSplit | src/parser/mod.rs:28 | gluing the pieces back together with the separator gives the original subject, so nothing is lost or reordered |
| Text.FilenameFromSubject | src/parser/mod.rs:28-33 | no filename exactly when the subject has no `"`. Otherwise the filename is the text after the first `"`, up to the next `"` or the end, and contains no `"` |
| Text.FilenameIsSecondPiece | src/parser/mod.rs:28 | the filename is `split("\"").nth(1)`: the second piece when there is one, otherwise nothing |
| Text.QuotedFilename | src/lib.rs:98-100 | a name between the first two `"` of a subject is the filename, whatever follows the closing quote |
| Text.UnterminatedFilename | src/parser/mod.rs:28-30 | with no closing `"`, the filename runs to the end of the subject |
| Text.ParseU32 | src/parser/mod.rs:53 | `parse::<u32>` accepts only an optional `+` followed by at least one digit, so never the empty string or a lone `+`. A string of digits, with or without one leading `+`, is accepted exactly when its value is below 2^32, and yields that value |
| Text.ParseFormat | src/lib.rs:119 | the decimal spelling of a number parses back to that number exactly when it is below 2^32, and is rejected otherwise |
| Text.ParsePlus | src/lib.rs:126 | a leading `+` is accepted and does not change the value |
| Tags.ScanFileAttributesSpec | src/lib.rs:92-107 | the `file` attribute loop, starting from any filename, aborts exactly when some attribute fails, with the first failing attribute's error. Otherwise the filename of the last `subject` wins |
| Tags.FileAttributesSpec | src/parser/mod.rs:22-37 | a `file` start tag aborts exactly when an attribute cannot be read or a subject has no `"`. The error is the first such attribute's error. Otherwise the tag yields the last subject's filename, or nothing when there is no subject |
| Tags.ScanSegmentAttributesSpec | src/lib.rs:113-132 | the `segment` attribute loop aborts exactly when an attribute or a `bytes`/`number` value cannot be read. Otherwise it keeps the last parseable value of each, or the earlier value when none parses |
| Tags.SegmentAttributesSpec | src/parser/mod.rs:40-59 | a `bytes` or `number` value that does not parse is skipped silently. Only unreadable attributes abort |
| Entities.NzbFileBuilder.SetFilename | src/parser/entities.rs:52-56 | sets the filename, replacing any earlier one, and leaves the groups and segments untouched |
| Entities.NzbFileBuilder.AddGroup | src/parser/mod.rs:75 | appends the group after the existing groups, which stay as they were, and changes nothing else |
| Entities.NzbFileBuilder.AddSegment | src/parser/entities.rs:58-61 | appends the segment at the end, keeps the earlier segments in order, and changes nothing else |
| Entities.NzbFileBuilder.Clear | src/parser/entities.rs:63-66 | afterwards there is no filename, no group and no segment |
| Entities.NzbFileBuilder.Create | src/parser/entities.rs:68-76 | fails exactly when no filename is set, and then leaves the builder unchanged with its segments kept. On success it returns the filename with the collected groups and segments, and empties the builder |
| Entities.SegmentBuilder.SetBytes | src/parser/entities.rs:87-90 | overwrites only the `bytes` slot and leaves the builder non-empty |
| Entities.SegmentBuilder.SetNumber | src/parser/entities.rs:92-95 | overwrites only the `number` slot and leaves the builder non-empty |
| Entities.SegmentBuilder.SetArticleId | src/parser/entities.rs:97-101 | overwrites only the `article_id` slot and leaves the builder non-empty |
| Entities.SegmentBuilder.Clear | src/parser/entities.rs:103-107 | afterwards the builder is empty |
| Entities.SegmentIsEmptyIff | src/parser/entities.rs:109-114 | `is_empty` holds exactly when none of the three slots is set |
| Entities.SegmentBuilder.Create | src/parser/entities.rs:116-124 | fails exactly when any slot is unset, and then leaves the builder unchanged. On success it returns a segment of exactly the three values and empties the builder |
| Entities.SegmentRoundTrip | src/parser/entities.rs:87-124 | setting the three slots of any builder and then creating returns exactly the segment that was set, and leaves the builder empty |
| Entities.AddSegmentsAppends | src/parser/entities.rs:58-61 | adding segments one by one leaves them after the earlier segments, in insertion order |
| Entities.AddGroupsAppends | src/parser/mod.rs:75 | adding group names one by one leaves them after the earlier groups, in insertion order |
| Entities.CreateAfterAccumulating | src/parser/entities.rs:52-76 | once a filename is set, `create` succeeds with that filename and every collected group and segment, in insertion order, and resets the builder |
| Entities.LastFilenameWins | src/parser/entities.rs:52-56 | setting the filename twice is the same as setting only the second one |
| Parser.Step | src/parser/mod.rs:16-98 | only a `file` end tag adds to the result list, and it adds exactly one file. Only `group` tags change the group flag. Only `Eof` ends with the list unchanged, and only a reader error panics |
| Parser.Feed | src/parser/mod.rs:16-98 | while the loop runs, the files already found stay as they are, and new files only go at the end |
| Parser.Parse | src/parser/mod.rs:9-100 | a successful parse returns exactly one file per `file` end tag before the end of the stream |
| Parser.FeedCounts | src/parser/mod.rs:81-83 | each `file` end tag adds exactly one file, both during a run and in the final list |
| Parser.TextRule | src/parser/mod.rs:67-77 | while a segment has a slot set, text becomes its article id. Otherwise, inside a group, text is appended as a group name. Otherwise text is ignored. Text that cannot be unescaped aborts only in the first two cases |
| Parser.IgnoredEvents | src/parser/mod.rs:64-95 | other event kinds, and start or end tags with other names, leave the state unchanged |
| Parser.SegmentStart | src/parser/mod.rs:39-60 | a `segment` start tag sets `bytes` and `number` to their last parseable values, keeps the slots whose values do not parse, and aborts only on an unreadable attribute |
| Parser.FileStart | src/parser/mod.rs:21-38 | a `file` start tag sets the filename of its last subject, or keeps the old one when it has no subject, and changes nothing else in the state. It aborts exactly when an attribute fails, with the error of the first failing attribute |
| Parser.FileEnd | src/parser/mod.rs:81-83 | a `file` end tag pushes the finished file, with its groups and segments, and resets the file builder while leaving the segment builder and the group flag alone. It fails with the missing-filename error exactly when no filename is set |
| Parser.GroupTags | src/parser/mod.rs:61-63 | a `group` start tag only sets the group flag, and a `group` end tag (lines 87-89) only clears it. Nothing else in the state changes |
| Parser.SegmentEnd | src/parser/mod.rs:84-86 | a `segment` end tag either appends the finished segment to the file builder and empties the segment builder, or, when a slot is unset, aborts the whole parse |
| Parser.GroupTracking | src/parser/mod.rs:61-89 | after any run, the parser is inside a group exactly when the last `group` tag it saw was a start tag. With no `group` tag, the flag is unchanged |
| Parser.FeedAppend | src/parser/mod.rs:16-98 | running over two event lists one after the other is the same as running over their concatenation |
| Parser.AbortIsFinal | src/parser/mod.rs:82-94 | an error or a panic at any point is the outcome of the whole parse, whatever follows, and no partial list is returned |
| Parser.FileOrder | src/parser/mod.rs:81-83 | the k-th file of the result is exactly the filename, groups and segments the builder held at the k-th `file` end tag |
| Parser.MissingFilenameAborts | src/parser/mod.rs:81-83 | a `file` end tag reached with no filename set fails the whole parse with that error |
| Parser.IncompleteSegmentAborts | src/parser/mod.rs:84-86 | a `segment` end tag reached with a slot unset fails the whole parse with that error |
| Parser.ParseRender | src/parser/mod.rs:9-100 | parsing a well-formed document returns its files in document order, each with its filename, groups and segments in document order |
| Legacy.NzbFileBuilder.SetFilename | src/lib.rs:57-60 | sets the filename, replacing any earlier one, and keeps the segments |
| Legacy.NzbFileBuilder.AddSegment | src/lib.rs:62-64 | appends the segment at the end, keeps the earlier segments in order, and keeps the filename |
| Legacy.NzbFileBuilder.Clear | src/lib.rs:66-69 | afterwards there is no filename and no segment |
| Legacy.NzbFileBuilder.Create | src/lib.rs:71-79 | fails exactly when no filename is set, and then leaves the builder unchanged. On success it returns the filename and the segments in insertion order, and empties the builder |
| Legacy.CreateAfterSetFilename | src/main.rs:7-9 | setting a filename and then calling `create` always succeeds, with that filename and the segments collected so far |
| Legacy.Step | src/lib.rs:87-160 | only a `file` end tag adds to the result list, and it adds exactly one file. Only `Eof` ends with the list unchanged, and only a reader error panics |
| Legacy.Feed | src/lib.rs:87-160 | while the loop runs, the files already found stay as they are, and new files only go at the end |
| Legacy.Parse | src/lib.rs:82-164 | a successful parse returns exactly one file per `file` end tag before the end of the stream |
| Legacy.FeedCounts | src/lib.rs:149-157 | each `file` end tag adds exactly one file, both during a run and in the final list |
| Legacy.SegmentStart | src/lib.rs:109-145 | at a `segment` start tag the parse goes on exactly when every attribute is readable, `bytes` and `number` both parse, and the tag decodes. The appended segment then carries exactly those values. Otherwise the parse fails |
| Legacy.FileStart | src/lib.rs:91-108 | a `file` start tag sets the filename of its last subject and keeps the segments, or aborts exactly when an attribute fails |
| Legacy.FileEnd | src/lib.rs:149-156 | a `file` end tag pushes the finished file and resets the builder, or fails when no filename is set |
| Legacy.IgnoresText | src/lib.rs:159 | removing every text event from the stream changes nothing |
| Legacy.FeedAppend | src/lib.rs:87-160 | running over two event lists one after the other is the same as running over their concatenation |
| Legacy.AbortIsFinal | src/lib.rs:93-158 | an error or a panic at any point is the outcome of the whole parse, whatever follows, and no partial list is returned |
| Legacy.FileOrder | src/lib.rs:151-153 | the k-th file of the result is exactly the filename and segments the builder held at the k-th `file` end tag |
| Legacy.InvalidSegmentAborts | src/lib.rs:137-144 | a segment start tag that cannot become a segment fails the whole parse |
| Legacy.MissingFilenameAborts | src/lib.rs:151-153 | a `file` end tag reached with no filename set fails the whole parse |
| Legacy.ParseRender | src/lib.rs:82-164 | on a well-formed document: every file, in order, with its filename and its segments' sizes and numbers in order. Each article id is the segment start tag's own text |
| Legacy.ArticleIdFromTag | src/lib.rs:133-139 | for a one-segment document, the reported article id is `segment bytes="1" number="1"`, whatever the element's text |
| Legacy.ArticleIdMisread | src/lib.rs:133-135 | so the reported article id differs from the document's own id |

## Findings

| source | as written | input that shows it | evidently intended | confidence | as-written member | corrected member |
|---|---|---|---|---|---|---|
| src/lib.rs:133-135 | the article id is `unescape_and_decode` of the segment start tag itself, which is the tag's name and attributes | `<segment bytes="1" number="1">part1@example</segment>` gives the article id `segment bytes="1" number="1"` | the element's text, `part1@example` | not executed; medium, because it depends on the reader returning the tag's own content for a start tag | Legacy.ArticleIdFromTag | Parser.ParseRender |

The newer parser takes the article id from the text node inside the segment.
`Parser.ParseRender` proves that it returns every segment's own article id.

## Left out

- The XML reader itself is not modelled: tokenising, attribute parsing,
  entity unescaping and `String::from_utf8_lossy`. Its output is an input
  here, and its failures appear as `None` values, `MalformedAttribute` and
  `Malformed` events.
- The reader's buffer position in error messages is left out. The message
  text is reduced to an `Error` kind.
- The two quick_xml failures inside one attribute are merged into
  `AttributeError`: reading the attribute, and unescaping its value.
- `debug!` logging is not modelled (see the note on `src/parser/mod.rs:68`
  above).
- `src/errors.rs` is not modelled. It contains the `failure` crate wrappers and
  `exit_with_error`, which prints and exits the process.
- `src/main.rs` is not modelled beyond the one promise it relies on
  (`Legacy.CreateAfterSetFilename`).
- The download, yEnc decoding, group failover, concurrency and output writing
  parts of the system are not modelled. None of them are in the source files
  of this model.
