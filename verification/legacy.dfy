/** The older NZB parser and its entities (src/lib.rs). It has no segment
    builder and no group tracking: a `segment` start tag is turned into a
    segment on the spot, from its `bytes` and `number` attributes and the
    decoded content of the tag itself, and text is never looked at. */
module Legacy {
  import opened Common
  import opened Text
  import opened Events
  import opened Tags
  import Entities
  import Document

  datatype Segment = Segment(bytes: u32, number: u32, articleId: string)

  datatype NzbFile = NzbFile(filename: string, segments: seq<Segment>)

  datatype NzbFileBuilder = NzbFileBuilder(filename: Option<string>, segments: seq<Segment>)
  {
    predicate IsEmpty()
    {
      filename.None? && |segments| == 0
    }

    /** Replaces any earlier filename. */
    function SetFilename(name: string): (r: NzbFileBuilder)
      ensures r.filename == Some(name) && r.segments == segments
    {
      this.(filename := Some(name))
    }

    /** Appends a segment after the ones already collected. */
    function AddSegment(segment: Segment): (r: NzbFileBuilder)
      ensures |r.segments| == |segments| + 1 && r.segments[..|segments|] == segments
      ensures r.segments[|segments|] == segment
      ensures r.filename == filename
    {
      this.(segments := segments + [segment])
    }

    function Clear(): (r: NzbFileBuilder)
      ensures r.IsEmpty()
    {
      NzbFileBuilder(None, [])
    }

    /** Fails exactly when no filename is set, leaving the builder as it was;
        otherwise yields the filename with the segments in insertion order and
        leaves the builder empty. */
    function Create(): (r: Built<NzbFileBuilder, NzbFile>)
      ensures r.result.Err? <==> filename.None?
      ensures r.result.Err? ==> r.result.error == MissingFilename && r.builder == this
      ensures r.result.Ok? ==> r.result.value == NzbFile(filename.value, segments)
      ensures r.result.Ok? ==> r.builder.IsEmpty()
    {
      match filename
      case None => Built(this, Err(MissingFilename))
      case Some(name) => Built(NzbFileBuilder(None, []), Ok(NzbFile(name, segments)))
    }
  }

  const EmptyFileBuilder: NzbFileBuilder := NzbFileBuilder(None, [])

  /** Whatever the builder held before, setting a filename is enough for
      `Create` to succeed with that filename and the segments collected so far;
      the demo entry point relies on this for a fresh builder. */
  lemma CreateAfterSetFilename(b: NzbFileBuilder, name: string)
    ensures b.SetFilename(name).Create() == Built(EmptyFileBuilder, Ok(NzbFile(name, b.segments)))
  {
  }

  datatype State = State(file: NzbFileBuilder, files: seq<NzbFile>)

  const Initial: State := State(EmptyFileBuilder, [])

  datatype Progress = Running(state: State) | Finished(outcome: Outcome<NzbFile>)

  /** The segment a `segment` start tag stands for: its attributes must be
      readable, `bytes` and `number` must both parse, and the tag's own content
      must decode (that decoded text is taken as the article id). */
  function SegmentFromTag(attrs: seq<Attribute>, decoded: Option<string>): Result<Segment>
  {
    match SegmentAttributes(attrs)
    case Err(e) => Err(e)
    case Ok((bytes, number)) =>
      match (bytes, number, decoded)
      case (Some(b), Some(n), Some(id)) => Ok(Segment(b, n, id))
      case _ => Err(InvalidSegment)
  }

  function StartElement(s: State, name: string, attrs: seq<Attribute>, decoded: Option<string>): Progress
  {
    if name == FileTag then
      match FileAttributes(attrs)
      case Err(e) => Finished(Failed(e))
      case Ok(filename) =>
        Running(if filename.Some? then s.(file := s.file.SetFilename(filename.value)) else s)
    else if name == SegmentTag then
      match SegmentFromTag(attrs, decoded)
      case Err(e) => Finished(Failed(e))
      case Ok(segment) => Running(s.(file := s.file.AddSegment(segment)))
    else Running(s)
  }

  function EndElement(s: State, name: string): Progress
  {
    if name == FileTag then
      var built := s.file.Create();
      match built.result
      case Err(e) => Finished(Failed(e))
      case Ok(f) => Running(s.(file := built.builder, files := s.files + [f]))
    else Running(s)
  }

  /** One turn of the reader loop. Only a `file` end tag adds to the result
      list, and the list is returned unchanged at the end of the stream. */
  function Step(s: State, e: Event): (r: Progress)
    ensures r.Running? ==>
      s.files <= r.state.files && |r.state.files| == |s.files| + if IsEnd(e, FileTag) then 1 else 0
    ensures r.Finished? && r.outcome.Parsed? <==> e.Eof?
    ensures r.Finished? && r.outcome.Parsed? ==> r.outcome.files == s.files
    ensures r == Finished(Panicked) <==> e.Malformed?
  {
    match e
    case Start(name, attrs, decoded) => StartElement(s, name, attrs, decoded)
    case End(name) => EndElement(s, name)
    case Eof => Finished(Parsed(s.files))
    case Malformed => Finished(Panicked)
    case Text(_) => Running(s)
    case Other => Running(s)
  }

  // The loop and the lemmas about whole runs mirror those of `Parser`, whose
  // reader loop has the same shape over a richer state.

  /** Runs the loop over `events`. Files already found are never dropped or
      reordered: the list only grows at its end. */
  function Feed(s: State, events: seq<Event>): (r: Progress)
    ensures r.Running? ==> s.files <= r.state.files
    ensures r.Finished? && r.outcome.Parsed? ==> s.files <= r.outcome.files
    decreases |events|
  {
    if |events| == 0 then Running(s)
    else
      match Step(s, events[0])
      case Running(s') => Feed(s', events[1..])
      case Finished(outcome) => Finished(outcome)
  }

  /** `parse_nzb`: a stream that runs out behaves as if it ended with `Eof`. */
  function Parse(events: seq<Event>): (r: Outcome<NzbFile>)
    ensures r.Parsed? ==> |r.files| == FileEndsBeforeEof(events)
  {
    FeedCounts(Initial, events);
    match Feed(Initial, events)
    case Running(s) => Parsed(s.files)
    case Finished(outcome) => outcome
  }

  // ---------------------------------------------------------------------------
  // Single events

  /** At a `segment` start tag the parse goes on only if every attribute is
      readable, `bytes` and `number` both parse and the tag decodes; the
      segment then appended carries exactly those values. Otherwise the whole
      parse fails at once. */
  lemma SegmentStart(s: State, attrs: seq<Attribute>, decoded: Option<string>)
    ensures var r := Step(s, Start(SegmentTag, attrs, decoded));
      && (r.Running? <==>
            && (forall i :: 0 <= i < |attrs| ==> !SegmentAttributeFails(attrs[i]))
            && LastNumber(attrs, BytesKey).Some? && LastNumber(attrs, NumberKey).Some? && decoded.Some?)
      && (r.Running? ==> r.state == s.(file := s.file.AddSegment(
            Segment(LastNumber(attrs, BytesKey).value, LastNumber(attrs, NumberKey).value, decoded.value))))
      && (r.Finished? ==> r.outcome == Failed(AttributeError) || r.outcome == Failed(InvalidSegment))
  {
    SegmentAttributesSpec(attrs);
  }

  /** A `file` start tag sets the filename of its last `subject`, or aborts on a
      subject without a double quote or an unreadable attribute. */
  lemma FileStart(s: State, attrs: seq<Attribute>, decoded: Option<string>)
    ensures var r := Step(s, Start(FileTag, attrs, decoded));
      && (r.Finished? <==> exists i :: 0 <= i < |attrs| && FileAttributeError(attrs[i]).Some?)
      && (r.Running? ==> r.state.file == s.file.(filename := LastFilename(attrs).Or(s.file.filename)))
      && (r.Running? ==> r.state.files == s.files)
  {
    FileAttributesSpec(attrs);
  }

  /** A `file` end tag pushes the finished file, or aborts when no filename is set. */
  lemma FileEnd(s: State)
    ensures var r := Step(s, End(FileTag));
      && (r.Finished? <==> s.file.filename.None?)
      && (r.Finished? ==> r.outcome == Failed(MissingFilename))
      && (r.Running? ==> r.state == State(EmptyFileBuilder, s.files + [NzbFile(s.file.filename.value, s.file.segments)]))
  {
  }

  // ---------------------------------------------------------------------------
  // Whole runs

  /** While the loop runs it gains exactly one file per `file` end tag, and
      a finished parse holds one per `file` end tag before the end of the
      stream. */
  lemma {:induction false} FeedCounts(s: State, events: seq<Event>)
    ensures var r := Feed(s, events);
      && (r.Running? ==> |r.state.files| == |s.files| + FileEndsBeforeEof(events))
      && (r.Finished? && r.outcome.Parsed? ==> |r.outcome.files| == |s.files| + FileEndsBeforeEof(events))
    decreases |events|
  {
    if |events| > 0 {
      match Step(s, events[0])
      case Running(s') => FeedCounts(s', events[1..]);
      case Finished(_) =>
    }
  }

  lemma {:induction false} FeedAppend(s: State, a: seq<Event>, b: seq<Event>)
    ensures Feed(s, a + b) == match Feed(s, a) case Running(s') => Feed(s', b) case Finished(o) => Finished(o)
    decreases |a|
  {
    if |a| == 0 {
      assert a + b == b;
    } else {
      assert (a + b)[0] == a[0];
      assert (a + b)[1..] == a[1..] + b;
      match Step(s, a[0])
      case Running(s') => FeedAppend(s', a[1..], b);
      case Finished(_) =>
    }
  }

  lemma FeedThen(s: State, a: seq<Event>, b: seq<Event>, s': State)
    requires Feed(s, a) == Running(s')
    ensures Feed(s, a + b) == Feed(s', b)
  {
    FeedAppend(s, a, b);
  }

  lemma FeedTwo(s: State, a: Event, b: Event)
    ensures Feed(s, [a, b]) == match Step(s, a) case Running(s1) => Step(s1, b) case Finished(o) => Finished(o)
  {
    assert [a, b][1..] == [b];
    assert [b][1..] == [];
    match Step(s, a)
    case Running(s1) =>
      assert Feed(s1, [b]) == match Step(s1, b) case Running(s2) => Feed(s2, []) case Finished(o) => Finished(o);
    case Finished(_) =>
  }

  lemma FeedThree(s: State, a: Event, b: Event, c: Event)
    ensures Feed(s, [a, b, c]) == match Step(s, a) case Running(s1) => Feed(s1, [b, c]) case Finished(o) => Finished(o)
  {
    assert [a, b, c][1..] == [b, c];
  }

  /** The events of `events` that are not text. */
  function WithoutText(events: seq<Event>): (r: seq<Event>)
    ensures forall k | 0 <= k < |r| :: !r[k].Text?
    decreases |events|
  {
    if |events| == 0 then []
    else if events[0].Text? then WithoutText(events[1..])
    else [events[0]] + WithoutText(events[1..])
  }

  /** Text plays no part: removing every text event changes nothing, so an
      article id written as an element's text is never read. */
  lemma {:induction false} IgnoresText(s: State, events: seq<Event>)
    ensures Feed(s, WithoutText(events)) == Feed(s, events)
    decreases |events|
  {
    if |events| > 0 {
      var rest := WithoutText(events[1..]);
      if events[0].Text? {
        IgnoresText(s, events[1..]);
      } else {
        assert ([events[0]] + rest)[0] == events[0];
        assert ([events[0]] + rest)[1..] == rest;
        match Step(s, events[0])
        case Running(s') => IgnoresText(s', events[1..]);
        case Finished(_) =>
      }
    }
  }

  /** Once an event ends the parse, nothing after it matters: an error or a
      panic at any point is the outcome of the whole parse, with no partial
      list of files. */
  lemma AbortIsFinal(before: seq<Event>, e: Event, after: seq<Event>, s: State)
    requires Feed(Initial, before) == Running(s)
    requires Step(s, e).Finished?
    ensures Parse(before + [e] + after) == Step(s, e).outcome
  {
    FeedAppend(Initial, before + [e], after);
    FeedAppend(Initial, before, [e]);
    assert Feed(s, [e]) == Step(s, e);
  }

  /** The file at position k of the result is exactly what the file builder
      held when the k-th `file` end tag arrived. */
  lemma FileOrder(before: seq<Event>, after: seq<Event>, s: State)
    requires Feed(Initial, before) == Running(s)
    requires Parse(before + [End(FileTag)] + after).Parsed?
    ensures s.file.filename.Some?
    ensures var files := Parse(before + [End(FileTag)] + after).files;
      |s.files| < |files| && files[|s.files|] == NzbFile(s.file.filename.value, s.file.segments)
  {
    FeedAppend(Initial, before + [End(FileTag)], after);
    FeedAppend(Initial, before, [End(FileTag)]);
    assert Feed(s, [End(FileTag)]) == Step(s, End(FileTag));
  }

  /** A segment start tag the parser cannot turn into a segment aborts the
      whole parse, whatever follows: no partial list is returned. */
  lemma InvalidSegmentAborts(before: seq<Event>, after: seq<Event>, s: State, attrs: seq<Attribute>, decoded: Option<string>)
    requires Feed(Initial, before) == Running(s)
    requires SegmentFromTag(attrs, decoded).Err?
    ensures Parse(before + [Start(SegmentTag, attrs, decoded)] + after) == Failed(SegmentFromTag(attrs, decoded).error)
  {
    AbortIsFinal(before, Start(SegmentTag, attrs, decoded), after, s);
  }

  /** A `file` end tag with no filename set fails the whole parse. */
  lemma MissingFilenameAborts(before: seq<Event>, after: seq<Event>, s: State)
    requires Feed(Initial, before) == Running(s)
    requires s.file.filename.None?
    ensures Parse(before + [End(FileTag)] + after) == Failed(MissingFilename)
  {
    AbortIsFinal(before, End(FileTag), after, s);
  }

  // ---------------------------------------------------------------------------
  // Round trip through a well-formed document

  /** What the older parser makes of a segment of a document: the article id
      is the decoded content of the segment's start tag. */
  function ReadSegment(seg: Entities.Segment): Segment
  {
    Segment(seg.bytes, seg.number, Document.TagText(SegmentTag, Document.SegmentAttrs(seg)))
  }

  function ReadSegments(segments: seq<Entities.Segment>): (r: seq<Segment>)
    ensures |r| == |segments|
    decreases |segments|
  {
    if |segments| == 0 then [] else [ReadSegment(segments[0])] + ReadSegments(segments[1..])
  }

  function ReadFile(f: Entities.NzbFile): NzbFile
  {
    NzbFile(f.filename, ReadSegments(f.segments))
  }

  function ReadFiles(files: seq<Entities.NzbFile>): (r: seq<NzbFile>)
    ensures |r| == |files|
    decreases |files|
  {
    if |files| == 0 then [] else [ReadFile(files[0])] + ReadFiles(files[1..])
  }

  lemma {:induction false} FeedGroups(s: State, groups: seq<string>)
    ensures Feed(s, Document.RenderGroups(groups)) == Running(s)
    decreases |groups|
  {
    if |groups| > 0 {
      var one := Document.RenderGroup(groups[0]);
      FeedThree(s, one[0], one[1], one[2]);
      FeedTwo(s, one[1], one[2]);
      FeedThen(s, one, Document.RenderGroups(groups[1..]), s);
      FeedGroups(s, groups[1..]);
    }
  }

  lemma FeedSegment(s: State, seg: Entities.Segment)
    ensures Feed(s, Document.RenderSegment(seg)) == Running(s.(file := s.file.AddSegment(ReadSegment(seg))))
  {
    var one := Document.RenderSegment(seg);
    Document.SegmentTagParses(seg);
    var s' := s.(file := s.file.AddSegment(ReadSegment(seg)));
    assert Step(s, one[0]) == Running(s');
    FeedThree(s, one[0], one[1], one[2]);
    FeedTwo(s', one[1], one[2]);
  }

  lemma {:induction false} FeedSegments(s: State, segments: seq<Entities.Segment>)
    ensures Feed(s, Document.RenderSegments(segments))
            == Running(s.(file := s.file.(segments := s.file.segments + ReadSegments(segments))))
    decreases |segments|
  {
    if |segments| == 0 {
      assert s.file.segments + [] == s.file.segments;
    } else {
      var seg := segments[0];
      var s' := s.(file := s.file.AddSegment(ReadSegment(seg)));
      FeedSegment(s, seg);
      FeedThen(s, Document.RenderSegment(seg), Document.RenderSegments(segments[1..]), s');
      FeedSegments(s', segments[1..]);
      AppendCons(s.file.segments, ReadSegment(seg), ReadSegments(segments[1..]));
    }
  }

  lemma FeedFileOpening(s: State, f: Entities.NzbFile)
    requires Quote !in f.filename
    ensures Feed(s, Document.FileOpening(f)) == Running(s.(file := s.file.SetFilename(f.filename)))
  {
    var open := Document.FileOpening(f);
    Document.FileTagParses(f.filename);
    FeedTwo(s, open[0], open[1]);
  }

  lemma FeedFileMiddle(s: State)
    ensures Feed(s, Document.FileMiddle()) == Running(s)
  {
    var middle := Document.FileMiddle();
    FeedTwo(s, middle[0], middle[1]);
  }

  lemma FeedFileClosing(s: State)
    requires s.file.filename.Some?
    ensures Feed(s, Document.FileClosing())
            == Running(s.(file := EmptyFileBuilder, files := s.files + [NzbFile(s.file.filename.value, s.file.segments)]))
  {
    var close := Document.FileClosing();
    FeedTwo(s, close[0], close[1]);
  }

  lemma FeedFile(s: State, f: Entities.NzbFile)
    requires s.file.IsEmpty()
    requires Quote !in f.filename
    ensures Feed(s, Document.RenderFile(f)) == Running(s.(files := s.files + [ReadFile(f)]))
  {
    var open, middle, close := Document.FileOpening(f), Document.FileMiddle(), Document.FileClosing();
    var gs := Document.RenderGroups(f.groups);
    var ss := Document.RenderSegments(f.segments);
    assert Document.RenderFile(f) == open + gs + middle + ss + close;

    var s1 := s.(file := s.file.SetFilename(f.filename));
    FeedFileOpening(s, f);
    FeedGroups(s1, f.groups);
    FeedFileMiddle(s1);
    FeedSegments(s1, f.segments);
    var s3 := s1.(file := s1.file.(segments := s1.file.segments + ReadSegments(f.segments)));
    assert s.file.segments + ReadSegments(f.segments) == ReadSegments(f.segments);
    FeedFileClosing(s3);
    assert s.file == EmptyFileBuilder;
    FeedThen(s, open, gs, s1);
    FeedThen(s, open + gs, middle, s1);
    FeedThen(s, open + gs + middle, ss, s1);
    FeedThen(s, open + gs + middle + ss, close, s3);
  }

  lemma FeedFirstFile(s: State, files: seq<Entities.NzbFile>)
    requires s.file.IsEmpty()
    requires |files| > 0 && Quote !in files[0].filename
    ensures Feed(s, Document.RenderFiles(files)) == Feed(s.(files := s.files + [ReadFile(files[0])]), Document.RenderFiles(files[1..]))
  {
    FeedFile(s, files[0]);
    FeedThen(s, Document.RenderFile(files[0]), Document.RenderFiles(files[1..]), s.(files := s.files + [ReadFile(files[0])]));
  }

  lemma ReadFilesCons(acc: seq<NzbFile>, files: seq<Entities.NzbFile>)
    requires |files| > 0
    ensures acc + [ReadFile(files[0])] + ReadFiles(files[1..]) == acc + ReadFiles(files)
  {
    AppendCons(acc, ReadFile(files[0]), ReadFiles(files[1..]));
  }

  lemma {:induction false} FeedFiles(s: State, files: seq<Entities.NzbFile>)
    requires s.file.IsEmpty()
    requires Document.Writable(files)
    ensures Feed(s, Document.RenderFiles(files)) == Running(s.(files := s.files + ReadFiles(files)))
    decreases |files|
  {
    if |files| == 0 {
      assert s.files + ReadFiles(files) == s.files;
    } else {
      Document.WritableTail(files);
      FeedFirstFile(s, files);
      FeedFiles(s.(files := s.files + [ReadFile(files[0])]), files[1..]);
      ReadFilesCons(s.files, files);
    }
  }

  /** On a well-formed document the older parser finds every file, in order,
      with its filename and its segments' sizes and numbers in order, but it
      takes each article id from the segment's start tag. */
  lemma ParseRender(files: seq<Entities.NzbFile>)
    requires Document.Writable(files)
    ensures Parse(Document.Render(files)) == Parsed(ReadFiles(files))
  {
    var open := [Document.StartTag(Document.RootTag, [])];
    var body := Document.RenderFiles(files);
    var close := [End(Document.RootTag), Eof];
    assert Document.Render(files) == open + body + close;
    assert Feed(Initial, open) == Running(Initial);
    FeedFiles(Initial, files);
    FeedAppend(Initial, open, body);
    FeedAppend(Initial, open + body, close);
    assert close[1..] == [Eof];
  }

  /** The content of the start tag `<segment bytes="1" number="1">`, which the
      older parser takes as that segment's article id. */
  const MisreadId: string := SegmentTag + " bytes=\"1\"" + " number=\"1\""

  lemma FirstSegmentAttrText(id: string)
    ensures var attrs := Document.SegmentAttrs(Entities.Segment(1, 1, id));
      Document.AttrText(attrs[0]) == " bytes=\"1\"" && Document.AttrText(attrs[1]) == " number=\"1\""
  {
    assert FormatDecimal(1) == "1";
  }

  /** The older parser reads the segment `bytes="1" number="1"` with the
      article id `MisreadId`, whatever its text. */
  lemma FirstSegmentTagText(id: string)
    ensures ReadSegment(Entities.Segment(1, 1, id)) == Segment(1, 1, MisreadId)
  {
    var attrs := Document.SegmentAttrs(Entities.Segment(1, 1, id));
    Document.TagTextPair(SegmentTag, attrs[0], attrs[1]);
    FirstSegmentAttrText(id);
  }

  /** A one-segment document whose article id the older parser misreads:
      `<segment bytes="1" number="1">part1@example</segment>` yields the
      article id `segment bytes="1" number="1"` whatever the element's text. */
  lemma ArticleIdFromTag(name: string, group: string, id: string)
    requires Quote !in name
    ensures Parse(Document.Render([Entities.NzbFile(name, [group], [Entities.Segment(1, 1, id)])]))
            == Parsed([NzbFile(name, [Segment(1, 1, MisreadId)])])
  {
    var doc := [Entities.NzbFile(name, [group], [Entities.Segment(1, 1, id)])];
    assert Document.Writable(doc);
    ParseRender(doc);
    FirstSegmentTagText(id);
    assert ReadSegments(doc[0].segments) == [ReadSegment(doc[0].segments[0])];
    assert ReadFiles(doc) == [ReadFile(doc[0])];
  }

  /** So the article id the older parser reports is not the one the document
      gives, `part1@example` for instance, unless the id happens to be that
      very tag text. */
  lemma ArticleIdMisread(name: string, group: string, id: string)
    requires Quote !in name
    requires id != MisreadId
    ensures var r := Parse(Document.Render([Entities.NzbFile(name, [group], [Entities.Segment(1, 1, id)])]));
      r.Parsed? && |r.files| == 1 && |r.files[0].segments| == 1 && r.files[0].segments[0].articleId != id
  {
    ArticleIdFromTag(name, group, id);
  }
}
