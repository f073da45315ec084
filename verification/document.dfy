/** A well-formed NZB document written out as the event stream a reader
    produces for it: a root element holding, per file, a `file` element with a
    quoted `subject`, a `groups` element of `group` text elements and a
    `segments` element of `segment` elements with `bytes` and `number`
    attributes and the article id as text. The parsers' round-trip lemmas run
    them on these streams. */
module Document {
  import opened Common
  import opened Text
  import opened Events
  import opened Entities
  import opened Tags

  const RootTag: string := "nzb"
  const GroupsTag: string := "groups"
  const SegmentsTag: string := "segments"

  /** A filename can be written in a subject only if it holds no double quote. */
  predicate Writable(files: seq<NzbFile>)
  {
    forall k | 0 <= k < |files| :: Quote !in files[k].filename
  }

  lemma WritableTail(files: seq<NzbFile>)
    requires |files| > 0 && Writable(files)
    ensures Quote !in files[0].filename && Writable(files[1..])
  {
    assert forall k | 0 <= k < |files[1..]| :: files[1..][k] == files[k + 1];
  }

  /** The content of a start tag as written, with entities replaced: its name
      followed by each attribute as `key="value"`. */
  function TagText(name: string, attrs: seq<Attribute>): string
    decreases |attrs|
  {
    if |attrs| == 0 then name
    else TagText(name, attrs[..|attrs| - 1]) + AttrText(attrs[|attrs| - 1])
  }

  /** A start tag with two attributes is its name followed by both of them. */
  lemma TagTextPair(name: string, a: Attribute, b: Attribute)
    ensures TagText(name, [a, b]) == name + AttrText(a) + AttrText(b)
  {
    assert [a, b][..1] == [a];
    assert [a][..0] == [];
    assert TagText(name, [a]) == name + AttrText(a);
    assert TagText(name, [a, b]) == TagText(name, [a]) + AttrText(b);
  }

  /** One attribute as written in a start tag: ` key="value"`. */
  function AttrText(a: Attribute): string
  {
    if a.Attribute? then [' '] + a.key + ['=', Quote] + a.value.GetOr("") + [Quote] else ""
  }

  function StartTag(name: string, attrs: seq<Attribute>): Event
  {
    Start(name, attrs, Some(TagText(name, attrs)))
  }

  function SubjectOf(filename: string): string
  {
    [Quote] + filename + [Quote]
  }

  function SegmentAttrs(s: Segment): seq<Attribute>
  {
    [Attribute(BytesKey, Some(FormatDecimal(s.bytes))), Attribute(NumberKey, Some(FormatDecimal(s.number)))]
  }

  function RenderSegment(s: Segment): seq<Event>
  {
    [StartTag(SegmentTag, SegmentAttrs(s)), Text(Some(s.articleId)), End(SegmentTag)]
  }

  function RenderSegments(segments: seq<Segment>): seq<Event>
    decreases |segments|
  {
    if |segments| == 0 then [] else RenderSegment(segments[0]) + RenderSegments(segments[1..])
  }

  function RenderGroup(group: string): seq<Event>
  {
    [StartTag(GroupTag, []), Text(Some(group)), End(GroupTag)]
  }

  function RenderGroups(groups: seq<string>): seq<Event>
    decreases |groups|
  {
    if |groups| == 0 then [] else RenderGroup(groups[0]) + RenderGroups(groups[1..])
  }

  function FileAttrs(f: NzbFile): seq<Attribute>
  {
    [Attribute(SubjectKey, Some(SubjectOf(f.filename)))]
  }

  /** The `file` start tag and the `groups` start tag after it. */
  function FileOpening(f: NzbFile): seq<Event>
  {
    [StartTag(FileTag, FileAttrs(f)), StartTag(GroupsTag, [])]
  }

  /** Between the groups and the segments of a file. */
  function FileMiddle(): seq<Event>
  {
    [End(GroupsTag), StartTag(SegmentsTag, [])]
  }

  function FileClosing(): seq<Event>
  {
    [End(SegmentsTag), End(FileTag)]
  }

  function RenderFile(f: NzbFile): seq<Event>
  {
    FileOpening(f) + RenderGroups(f.groups) + FileMiddle() + RenderSegments(f.segments) + FileClosing()
  }

  function RenderFiles(files: seq<NzbFile>): seq<Event>
    decreases |files|
  {
    if |files| == 0 then [] else RenderFile(files[0]) + RenderFiles(files[1..])
  }

  /** The whole document, ending with the end of the stream. */
  function Render(files: seq<NzbFile>): seq<Event>
  {
    [StartTag(RootTag, [])] + RenderFiles(files) + [End(RootTag), Eof]
  }

  // ---------------------------------------------------------------------------
  // What the shared attribute loops read back from the tags written here.

  /** A written `segment` start tag yields its own `bytes` and `number`. */
  lemma SegmentTagParses(seg: Segment)
    ensures SegmentAttributes(SegmentAttrs(seg)) == Ok((Some(seg.bytes), Some(seg.number)))
  {
    var attrs := SegmentAttrs(seg);
    ParseFormat(seg.bytes);
    ParseFormat(seg.number);
    assert attrs[1..][1..] == [];
    assert ScanSegmentAttributes(attrs[1..], Some(seg.bytes), None) == Ok((Some(seg.bytes), Some(seg.number)));
  }

  /** A written `file` start tag yields its own filename. */
  lemma FileTagParses(name: string)
    requires Quote !in name
    ensures FileAttributes([Attribute(SubjectKey, Some(SubjectOf(name)))]) == Ok(Some(name))
  {
    var attrs := [Attribute(SubjectKey, Some(SubjectOf(name)))];
    QuotedFilename([], name, []);
    assert SubjectOf(name) == [] + [Quote] + name + [Quote] + [];
    assert attrs[1..] == [];
    assert ScanFileAttributes(attrs[1..], Some(name)) == Ok(Some(name));
  }
}
