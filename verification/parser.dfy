/** The newer NZB parser (src/parser/mod.rs): a state machine over the reader's
    events that drives a file builder and a segment builder and tracks whether
    it is inside a `group` element. `Parse` folds `Step` over the events. */
module Parser {
  import opened Common
  import opened Text
  import opened Events
  import opened Tags
  import opened Entities
  import Document

  datatype State = State(file: NzbFileBuilder, segment: SegmentBuilder, inGroup: bool, files: seq<NzbFile>)

  const Initial: State := State(EmptyFileBuilder, EmptySegmentBuilder, false, [])

  /** After an event the parser either goes on in a new state or has finished
      with the outcome of the whole parse. */
  datatype Progress = Running(state: State) | Finished(outcome: Outcome<NzbFile>)

  /** The effect an event has on whether the parser is inside a `group`. */
  function GroupEffect(e: Event): Option<bool>
  {
    if IsStart(e, GroupTag) then Some(true) else if IsEnd(e, GroupTag) then Some(false) else None
  }

  /** The effect of the last event of `events` that opens or closes a `group`. */
  function LastGroupEffect(events: seq<Event>): (r: Option<bool>)
    ensures r.Some? ==>
      exists i :: 0 <= i < |events| && GroupEffect(events[i]) == r
        && forall j :: i < j < |events| ==> GroupEffect(events[j]).None?
    ensures r.None? <==> forall i :: 0 <= i < |events| ==> GroupEffect(events[i]).None?
  {
    if |events| == 0 then None
    else
      var r := LastGroupEffect(events[1..]).Or(GroupEffect(events[0]));
      assert forall i :: 0 < i < |events| ==> events[i] == events[1..][i - 1];
      r
  }

  function StartElement(s: State, name: string, attrs: seq<Attribute>): Progress
  {
    if name == FileTag then
      match FileAttributes(attrs)
      case Err(e) => Finished(Failed(e))
      case Ok(filename) =>
        Running(if filename.Some? then s.(file := s.file.SetFilename(filename.value)) else s)
    else if name == SegmentTag then
      match SegmentAttributes(attrs)
      case Err(e) => Finished(Failed(e))
      case Ok((bytes, number)) =>
        var segment := if bytes.Some? then s.segment.SetBytes(bytes.value) else s.segment;
        var segment := if number.Some? then segment.SetNumber(number.value) else segment;
        Running(s.(segment := segment))
    else if name == GroupTag then Running(s.(inGroup := true))
    else Running(s)
  }

  /** Text is an article id while a segment is under way, a group name inside
      a `group`, and ignored otherwise. */
  function TextNode(s: State, text: Option<string>): Progress
  {
    if !s.segment.IsEmpty() then
      match text
      case None => Finished(Failed(TextError))
      case Some(t) => Running(s.(segment := s.segment.SetArticleId(t)))
    else if s.inGroup then
      match text
      case None => Finished(Failed(TextError))
      case Some(t) => Running(s.(file := s.file.AddGroup(t)))
    else Running(s)
  }

  function EndElement(s: State, name: string): Progress
  {
    if name == FileTag then
      var built := s.file.Create();
      match built.result
      case Err(e) => Finished(Failed(e))
      case Ok(f) => Running(s.(file := built.builder, files := s.files + [f]))
    else if name == SegmentTag then
      var built := s.segment.Create();
      match built.result
      case Err(e) => Finished(Failed(e))
      case Ok(segment) => Running(s.(segment := built.builder, file := s.file.AddSegment(segment)))
    else if name == GroupTag then Running(s.(inGroup := false))
    else Running(s)
  }

  /** One turn of the reader loop. Only a `file` end tag adds to the result
      list, only `group` tags move in or out of a group, and the list is
      returned unchanged at the end of the stream. */
  function Step(s: State, e: Event): (r: Progress)
    ensures r.Running? ==>
      s.files <= r.state.files && |r.state.files| == |s.files| + if IsEnd(e, FileTag) then 1 else 0
    ensures r.Running? ==> r.state.inGroup == GroupEffect(e).GetOr(s.inGroup)
    ensures r.Finished? && r.outcome.Parsed? <==> e.Eof?
    ensures r.Finished? && r.outcome.Parsed? ==> r.outcome.files == s.files
    ensures r == Finished(Panicked) <==> e.Malformed?
  {
    match e
    case Start(name, attrs, _) => StartElement(s, name, attrs)
    case Text(text) => TextNode(s, text)
    case End(name) => EndElement(s, name)
    case Eof => Finished(Parsed(s.files))
    case Malformed => Finished(Panicked)
    case Other => Running(s)
  }

  // The loop and the lemmas about whole runs mirror those of `Legacy`, whose
  // reader loop has the same shape over a state without a segment builder.

  /** Runs the loop over `events`. Files already found are never dropped or
      reordered: the list only grows at its end. */
  function Feed(s: State, events: seq<Event>): (r: Progress)
    ensures r.Running? ==> s.files <= r.state.files
    ensures r.Finished? && r.outcome.Parsed? ==> s.files <= r.outcome.files
    decreases |events|
  {
    if |events| == 0 then Running(s)
    else
      match Step(s, events[0])
      case Running(s') => Feed(s', events[1..])
      case Finished(outcome) => Finished(outcome)
  }

  /** `parse_nzb`: a stream that runs out behaves as if it ended with `Eof`. */
  function Parse(events: seq<Event>): (r: Outcome<NzbFile>)
    ensures r.Parsed? ==> |r.files| == FileEndsBeforeEof(events)
  {
    FeedCounts(Initial, events);
    match Feed(Initial, events)
    case Running(s) => Parsed(s.files)
    case Finished(outcome) => outcome
  }

  // ---------------------------------------------------------------------------
  // Single events

  /** Text becomes the article id while the segment builder holds anything;
      otherwise, inside a group, it is appended as a group name; otherwise it
      is ignored. Text that cannot be unescaped aborts only where it is used. */
  lemma TextRule(s: State, text: Option<string>)
    ensures !s.segment.IsEmpty() ==>
      Step(s, Text(text)) == if text.None? then Finished(Failed(TextError))
                             else Running(s.(segment := s.segment.SetArticleId(text.value)))
    ensures s.segment.IsEmpty() && s.inGroup ==>
      Step(s, Text(text)) == if text.None? then Finished(Failed(TextError))
                             else Running(s.(file := s.file.AddGroup(text.value)))
    ensures s.segment.IsEmpty() && !s.inGroup ==> Step(s, Text(text)) == Running(s)
  {
  }

  /** Events of other kinds, and tags with other names, change nothing. */
  lemma IgnoredEvents(s: State, e: Event)
    requires e.Other? || (e.Start? && e.name !in {FileTag, SegmentTag, GroupTag})
                      || (e.End? && e.name !in {FileTag, SegmentTag, GroupTag})
    ensures Step(s, e) == Running(s)
  {
  }

  /** A `segment` end tag either hands the finished segment to the file
      builder, emptying the segment builder, or aborts the whole parse. */
  lemma SegmentEnd(s: State)
    ensures var r := Step(s, End(SegmentTag));
      && (r.Finished? <==> (s.segment.bytes.None? || s.segment.number.None? || s.segment.articleId.None?))
      && (r.Finished? ==> r.outcome == Failed(IncompleteSegment))
      && (r.Running? ==> r.state == s.(segment := EmptySegmentBuilder,
            file := s.file.AddSegment(Segment(s.segment.bytes.value, s.segment.number.value, s.segment.articleId.value))))
  {
  }

  /** A `segment` start tag sets the slots whose values parse, keeps the others,
      and aborts only on an unreadable attribute. */
  lemma SegmentStart(s: State, attrs: seq<Attribute>, decoded: Option<string>)
    ensures var r := Step(s, Start(SegmentTag, attrs, decoded));
      && (r.Finished? <==> exists i :: 0 <= i < |attrs| && SegmentAttributeFails(attrs[i]))
      && (r.Finished? ==> r.outcome == Failed(AttributeError))
      && (r.Running? ==> r.state == s.(segment := s.segment.(
            bytes := LastNumber(attrs, BytesKey).Or(s.segment.bytes),
            number := LastNumber(attrs, NumberKey).Or(s.segment.number))))
  {
    SegmentAttributesSpec(attrs);
  }

  /** A `file` start tag sets the filename of its last `subject` and changes
      nothing else, or aborts on a subject without a double quote or an
      unreadable attribute, with the error of the first such attribute. */
  lemma FileStart(s: State, attrs: seq<Attribute>, decoded: Option<string>)
    ensures var r := Step(s, Start(FileTag, attrs, decoded));
      && (r.Finished? <==> exists i :: 0 <= i < |attrs| && FileAttributeError(attrs[i]).Some?)
      && (r.Finished? ==> r.outcome.Failed? && FileAttributes(attrs) == Err(r.outcome.error))
      && (r.Finished? ==> exists i :: 0 <= i < |attrs| && FileAttributeError(attrs[i]) == Some(r.outcome.error)
                            && forall j :: 0 <= j < i ==> FileAttributeError(attrs[j]).None?)
      && (r.Running? ==> r.state == s.(file := s.file.(filename := LastFilename(attrs).Or(s.file.filename))))
  {
    FileAttributesSpec(attrs);
  }

  /** A `file` end tag pushes the finished file and resets the file builder,
      leaving the segment builder and the group flag alone, or fails the parse
      when no filename is set. */
  lemma FileEnd(s: State)
    ensures var r := Step(s, End(FileTag));
      && (r.Finished? <==> s.file.filename.None?)
      && (r.Finished? ==> r.outcome == Failed(MissingFilename))
      && (r.Running? ==> r.state == s.(file := EmptyFileBuilder,
            files := s.files + [NzbFile(s.file.filename.value, s.file.groups, s.file.segments)]))
  {
  }

  /** `group` tags only move the parser in or out of a group. */
  lemma GroupTags(s: State, attrs: seq<Attribute>, decoded: Option<string>)
    ensures Step(s, Start(GroupTag, attrs, decoded)) == Running(s.(inGroup := true))
    ensures Step(s, End(GroupTag)) == Running(s.(inGroup := false))
  {
  }

  // ---------------------------------------------------------------------------
  // Whole runs

  /** While the loop runs it gains exactly one file per `file` end tag, and
      a finished parse holds one per `file` end tag before the end of the
      stream. */
  lemma {:induction false} FeedCounts(s: State, events: seq<Event>)
    ensures var r := Feed(s, events);
      && (r.Running? ==> |r.state.files| == |s.files| + FileEndsBeforeEof(events))
      && (r.Finished? && r.outcome.Parsed? ==> |r.outcome.files| == |s.files| + FileEndsBeforeEof(events))
    decreases |events|
  {
    if |events| > 0 {
      match Step(s, events[0])
      case Running(s') => FeedCounts(s', events[1..]);
      case Finished(_) =>
    }
  }

  lemma {:induction false} FeedAppend(s: State, a: seq<Event>, b: seq<Event>)
    ensures Feed(s, a + b) == match Feed(s, a) case Running(s') => Feed(s', b) case Finished(o) => Finished(o)
    decreases |a|
  {
    if |a| == 0 {
      assert a + b == b;
    } else {
      assert (a + b)[0] == a[0];
      assert (a + b)[1..] == a[1..] + b;
      match Step(s, a[0])
      case Running(s') => FeedAppend(s', a[1..], b);
      case Finished(_) =>
    }
  }

  lemma FeedThen(s: State, a: seq<Event>, b: seq<Event>, s': State)
    requires Feed(s, a) == Running(s')
    ensures Feed(s, a + b) == Feed(s', b)
  {
    FeedAppend(s, a, b);
  }

  lemma FeedTwo(s: State, a: Event, b: Event)
    ensures Feed(s, [a, b]) == match Step(s, a) case Running(s1) => Step(s1, b) case Finished(o) => Finished(o)
  {
    assert [a, b][1..] == [b];
    assert [b][1..] == [];
    match Step(s, a)
    case Running(s1) =>
      assert Feed(s1, [b]) == match Step(s1, b) case Running(s2) => Feed(s2, []) case Finished(o) => Finished(o);
    case Finished(_) =>
  }

  lemma FeedThree(s: State, a: Event, b: Event, c: Event)
    ensures Feed(s, [a, b, c]) == match Step(s, a) case Running(s1) => Feed(s1, [b, c]) case Finished(o) => Finished(o)
  {
    assert [a, b, c][1..] == [b, c];
  }

  /** After a run, the parser is inside a group exactly when the last `group`
      tag it saw was a start tag, or it saw none and was inside one before. */
  lemma {:induction false} GroupTracking(s: State, events: seq<Event>)
    requires Feed(s, events).Running?
    ensures Feed(s, events).state.inGroup == LastGroupEffect(events).GetOr(s.inGroup)
    decreases |events|
  {
    if |events| > 0 {
      GroupTracking(Step(s, events[0]).state, events[1..]);
    }
  }

  /** Once an event ends the parse, nothing after it matters: an error or a
      panic at any point is the outcome of the whole parse, with no partial
      list of files. */
  lemma AbortIsFinal(before: seq<Event>, e: Event, after: seq<Event>, s: State)
    requires Feed(Initial, before) == Running(s)
    requires Step(s, e).Finished?
    ensures Parse(before + [e] + after) == Step(s, e).outcome
  {
    FeedAppend(Initial, before + [e], after);
    FeedAppend(Initial, before, [e]);
    assert Feed(s, [e]) == Step(s, e);
  }

  /** The file at position k of the result is exactly what the file builder
      held when the k-th `file` end tag arrived. */
  lemma FileOrder(before: seq<Event>, after: seq<Event>, s: State)
    requires Feed(Initial, before) == Running(s)
    requires Parse(before + [End(FileTag)] + after).Parsed?
    ensures s.file.filename.Some?
    ensures var files := Parse(before + [End(FileTag)] + after).files;
      |s.files| < |files| && files[|s.files|] == NzbFile(s.file.filename.value, s.file.groups, s.file.segments)
  {
    FeedAppend(Initial, before + [End(FileTag)], after);
    FeedAppend(Initial, before, [End(FileTag)]);
    assert Feed(s, [End(FileTag)]) == Step(s, End(FileTag));
  }

  /** A builder error anywhere aborts the whole parse: a `file` end tag with no
      filename set fails, whatever follows. */
  lemma MissingFilenameAborts(before: seq<Event>, after: seq<Event>, s: State)
    requires Feed(Initial, before) == Running(s)
    requires s.file.filename.None?
    ensures Parse(before + [End(FileTag)] + after) == Failed(MissingFilename)
  {
    AbortIsFinal(before, End(FileTag), after, s);
  }

  /** Likewise a `segment` end tag reached with a slot unset. */
  lemma IncompleteSegmentAborts(before: seq<Event>, after: seq<Event>, s: State)
    requires Feed(Initial, before) == Running(s)
    requires s.segment.bytes.None? || s.segment.number.None? || s.segment.articleId.None?
    ensures Parse(before + [End(SegmentTag)] + after) == Failed(IncompleteSegment)
  {
    AbortIsFinal(before, End(SegmentTag), after, s);
  }

  // ---------------------------------------------------------------------------
  // Round trip through a well-formed document

  /** Between elements: no segment under way and outside any group. */
  predicate Settled(s: State)
  {
    s.segment.IsEmpty() && !s.inGroup
  }

  lemma {:induction false} FeedGroups(s: State, groups: seq<string>)
    requires Settled(s)
    ensures Feed(s, Document.RenderGroups(groups)) == Running(s.(file := AddGroups(s.file, groups)))
    decreases |groups|
  {
    if |groups| > 0 {
      var one := Document.RenderGroup(groups[0]);
      FeedAppend(s, one, Document.RenderGroups(groups[1..]));
      var s' := s.(file := s.file.AddGroup(groups[0]));
      assert Feed(s, one) == Running(s') by {
        FeedThree(s, one[0], one[1], one[2]);
        FeedTwo(s.(inGroup := true), one[1], one[2]);
      }
      FeedGroups(s', groups[1..]);
    }
  }

  lemma {:induction false} FeedSegments(s: State, segments: seq<Segment>)
    requires Settled(s)
    ensures Feed(s, Document.RenderSegments(segments)) == Running(s.(file := AddSegments(s.file, segments)))
    decreases |segments|
  {
    if |segments| > 0 {
      var seg := segments[0];
      var one := Document.RenderSegment(seg);
      FeedAppend(s, one, Document.RenderSegments(segments[1..]));
      var s' := s.(file := s.file.AddSegment(seg));
      assert Feed(s, one) == Running(s') by {
        Document.SegmentTagParses(seg);
        var s1 := s.(segment := s.segment.SetBytes(seg.bytes).SetNumber(seg.number));
        assert Step(s, one[0]) == Running(s1);
        FeedThree(s, one[0], one[1], one[2]);
        FeedTwo(s1, one[1], one[2]);
      }
      FeedSegments(s', segments[1..]);
    }
  }

  lemma FeedFileOpening(s: State, f: NzbFile)
    requires Quote !in f.filename
    ensures Feed(s, Document.FileOpening(f)) == Running(s.(file := s.file.SetFilename(f.filename)))
  {
    var open := Document.FileOpening(f);
    Document.FileTagParses(f.filename);
    FeedTwo(s, open[0], open[1]);
  }

  lemma FeedFileMiddle(s: State)
    ensures Feed(s, Document.FileMiddle()) == Running(s)
  {
    var middle := Document.FileMiddle();
    FeedTwo(s, middle[0], middle[1]);
  }

  lemma FeedFileClosing(s: State)
    requires s.file.filename.Some?
    ensures Feed(s, Document.FileClosing()) == Running(s.(file := EmptyFileBuilder,
      files := s.files + [NzbFile(s.file.filename.value, s.file.groups, s.file.segments)]))
  {
    var close := Document.FileClosing();
    FeedTwo(s, close[0], close[1]);
  }

  lemma FeedFile(s: State, f: NzbFile)
    requires Settled(s) && s.file.IsEmpty()
    requires Quote !in f.filename
    ensures Feed(s, Document.RenderFile(f)) == Running(s.(files := s.files + [f]))
  {
    var open, middle, close := Document.FileOpening(f), Document.FileMiddle(), Document.FileClosing();
    var gs := Document.RenderGroups(f.groups);
    var ss := Document.RenderSegments(f.segments);
    assert Document.RenderFile(f) == open + gs + middle + ss + close;

    var s1 := s.(file := s.file.SetFilename(f.filename));
    FeedFileOpening(s, f);
    FeedGroups(s1, f.groups);
    var s2 := s1.(file := AddGroups(s1.file, f.groups));
    FeedFileMiddle(s2);
    FeedSegments(s2, f.segments);
    var s3 := s2.(file := AddSegments(s2.file, f.segments));
    CreateAfterAccumulating(s.file, f.filename, f.groups, f.segments);
    assert s.file.groups + f.groups == f.groups;
    assert s.file.segments + f.segments == f.segments;
    FeedFileClosing(s3);
    assert s.file == EmptyFileBuilder;
    FeedThen(s, open, gs, s1);
    FeedThen(s, open + gs, middle, s2);
    FeedThen(s, open + gs + middle, ss, s2);
    FeedThen(s, open + gs + middle + ss, close, s3);
  }

  lemma FeedFirstFile(s: State, files: seq<NzbFile>)
    requires Settled(s) && s.file.IsEmpty()
    requires |files| > 0 && Quote !in files[0].filename
    ensures Feed(s, Document.RenderFiles(files)) == Feed(s.(files := s.files + [files[0]]), Document.RenderFiles(files[1..]))
  {
    FeedFile(s, files[0]);
    FeedThen(s, Document.RenderFile(files[0]), Document.RenderFiles(files[1..]), s.(files := s.files + [files[0]]));
  }

  lemma FilesCons(s: State, files: seq<NzbFile>)
    requires |files| > 0
    ensures var s' := s.(files := s.files + [files[0]]);
      s'.(files := s'.files + files[1..]) == s.(files := s.files + files)
  {
    assert s.files + [files[0]] + files[1..] == s.files + files;
  }

  lemma {:induction false} FeedFiles(s: State, files: seq<NzbFile>)
    requires Settled(s) && s.file.IsEmpty()
    requires Document.Writable(files)
    ensures Feed(s, Document.RenderFiles(files)) == Running(s.(files := s.files + files))
    decreases |files|
  {
    if |files| == 0 {
      assert s.files + files == s.files;
    } else {
      Document.WritableTail(files);
      FeedFirstFile(s, files);
      FeedFiles(s.(files := s.files + [files[0]]), files[1..]);
      FilesCons(s, files);
    }
  }

  /** Parsing a well-formed document gives back its files, in document order,
      each with its filename, its groups and its segments in document order. */
  lemma ParseRender(files: seq<NzbFile>)
    requires Document.Writable(files)
    ensures Parse(Document.Render(files)) == Parsed(files)
  {
    var open := [Document.StartTag(Document.RootTag, [])];
    var body := Document.RenderFiles(files);
    var close := [End(Document.RootTag), Eof];
    assert Document.Render(files) == open + body + close;
    assert Feed(Initial, open) == Running(Initial);
    FeedFiles(Initial, files);
    FeedAppend(Initial, open, body);
    FeedAppend(Initial, open + body, close);
    assert close[1..] == [Eof];
  }
}
