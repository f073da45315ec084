/** The records and accumulate-then-finalize builders of the newer parser
    (src/parser/entities.rs). A builder is a record of optional slots; each
    operation returns the builder after the call, and `Create` also returns
    the finished record or the error it failed with. */
module Entities {
  import opened Common

  /** One article of a multi-part posting. */
  datatype Segment = Segment(bytes: u32, number: u32, articleId: string)

  /** One described file: its filename, the groups it was posted to and its
      segments, all in document order. */
  datatype NzbFile = NzbFile(filename: string, groups: seq<string>, segments: seq<Segment>)

  datatype NzbFileBuilder = NzbFileBuilder(filename: Option<string>, groups: seq<string>, segments: seq<Segment>)
  {
    /** No filename, no groups and no segments: the builder's default state. */
    predicate IsEmpty()
    {
      filename.None? && |groups| == 0 && |segments| == 0
    }

    /** Replaces any earlier filename. */
    function SetFilename(name: string): (r: NzbFileBuilder)
      ensures r.filename == Some(name)
      ensures r.groups == groups && r.segments == segments
    {
      this.(filename := Some(name))
    }

    /** Appends a group name after the ones already collected. */
    function AddGroup(group: string): (r: NzbFileBuilder)
      ensures |r.groups| == |groups| + 1 && r.groups[..|groups|] == groups && r.groups[|groups|] == group
      ensures r.filename == filename && r.segments == segments
    {
      this.(groups := groups + [group])
    }

    /** Appends a segment after the ones already collected. */
    function AddSegment(segment: Segment): (r: NzbFileBuilder)
      ensures |r.segments| == |segments| + 1 && r.segments[..|segments|] == segments
      ensures r.segments[|segments|] == segment
      ensures r.filename == filename && r.groups == groups
    {
      this.(segments := segments + [segment])
    }

    function Clear(): (r: NzbFileBuilder)
      ensures r.IsEmpty()
    {
      NzbFileBuilder(None, [], [])
    }

    /** Fails exactly when no filename is set, leaving the builder as it was;
        otherwise yields the filename with everything collected, in insertion
        order, and leaves the builder empty. Groups are not checked. */
    function Create(): (r: Built<NzbFileBuilder, NzbFile>)
      ensures r.result.Err? <==> filename.None?
      ensures r.result.Err? ==> r.result.error == MissingFilename && r.builder == this
      ensures r.result.Ok? ==> r.result.value == NzbFile(filename.value, groups, segments)
      ensures r.result.Ok? ==> r.builder.IsEmpty()
    {
      match filename
      case None => Built(this, Err(MissingFilename))
      case Some(name) => Built(NzbFileBuilder(None, [], []), Ok(NzbFile(name, groups, segments)))
    }
  }

  const EmptyFileBuilder: NzbFileBuilder := NzbFileBuilder(None, [], [])

  datatype SegmentBuilder = SegmentBuilder(bytes: Option<u32>, number: Option<u32>, articleId: Option<string>)
  {
    /** True when no slot is set. */
    predicate IsEmpty()
    {
      match (bytes, number, articleId)
      case (None, None, None) => true
      case _ => false
    }

    function SetBytes(value: u32): (r: SegmentBuilder)
      ensures r.bytes == Some(value) && r.number == number && r.articleId == articleId
      ensures !r.IsEmpty()
    {
      this.(bytes := Some(value))
    }

    function SetNumber(value: u32): (r: SegmentBuilder)
      ensures r.number == Some(value) && r.bytes == bytes && r.articleId == articleId
      ensures !r.IsEmpty()
    {
      this.(number := Some(value))
    }

    function SetArticleId(value: string): (r: SegmentBuilder)
      ensures r.articleId == Some(value) && r.bytes == bytes && r.number == number
      ensures !r.IsEmpty()
    {
      this.(articleId := Some(value))
    }

    function Clear(): (r: SegmentBuilder)
      ensures r.IsEmpty()
    {
      SegmentBuilder(None, None, None)
    }

    /** Fails when any slot is unset, leaving the builder as it was; otherwise
        yields a segment of exactly the three values and empties the builder. */
    function Create(): (r: Built<SegmentBuilder, Segment>)
      ensures r.result.Err? <==> (bytes.None? || number.None? || articleId.None?)
      ensures r.result.Err? ==> r.result.error == IncompleteSegment && r.builder == this
      ensures r.result.Ok? ==> r.result.value == Segment(bytes.value, number.value, articleId.value)
      ensures r.result.Ok? ==> r.builder.IsEmpty()
    {
      match (bytes, number, articleId)
      case (Some(b), Some(n), Some(id)) => Built(SegmentBuilder(None, None, None), Ok(Segment(b, n, id)))
      case _ => Built(this, Err(IncompleteSegment))
    }
  }

  const EmptySegmentBuilder: SegmentBuilder := SegmentBuilder(None, None, None)

  /** A builder is empty exactly when none of its three slots holds a value. */
  lemma SegmentIsEmptyIff(b: SegmentBuilder)
    ensures b.IsEmpty() <==> (b.bytes.None? && b.number.None? && b.articleId.None?)
  {
  }

  /** Setting all three slots, in any earlier state, and creating gives back
      exactly the segment whose values were set. */
  lemma SegmentRoundTrip(b: SegmentBuilder, s: Segment)
    ensures b.SetBytes(s.bytes).SetNumber(s.number).SetArticleId(s.articleId).Create()
            == Built(EmptySegmentBuilder, Ok(s))
  {
  }

  /** Appends every segment of `segments` in turn. */
  function AddSegments(b: NzbFileBuilder, segments: seq<Segment>): (r: NzbFileBuilder)
    ensures r.filename == b.filename && r.groups == b.groups
    decreases |segments|
  {
    if |segments| == 0 then b else AddSegments(b.AddSegment(segments[0]), segments[1..])
  }

  /** Appends every group of `groups` in turn. */
  function AddGroups(b: NzbFileBuilder, groups: seq<string>): (r: NzbFileBuilder)
    ensures r.filename == b.filename && r.segments == b.segments
    decreases |groups|
  {
    if |groups| == 0 then b else AddGroups(b.AddGroup(groups[0]), groups[1..])
  }

  lemma {:induction false} AddSegmentsAppends(b: NzbFileBuilder, segments: seq<Segment>)
    ensures AddSegments(b, segments).segments == b.segments + segments
    decreases |segments|
  {
    if |segments| > 0 {
      AddSegmentsAppends(b.AddSegment(segments[0]), segments[1..]);
      assert b.segments + [segments[0]] + segments[1..] == b.segments + segments;
    }
  }

  lemma {:induction false} AddGroupsAppends(b: NzbFileBuilder, groups: seq<string>)
    ensures AddGroups(b, groups).groups == b.groups + groups
    decreases |groups|
  {
    if |groups| > 0 {
      AddGroupsAppends(b.AddGroup(groups[0]), groups[1..]);
      assert b.groups + [groups[0]] + groups[1..] == b.groups + groups;
    }
  }

  /** Whatever was collected, a filename set before the segments are added is
      enough for `Create` to succeed, and the file lists the segments in the
      order they were added; the builder is reset afterwards. */
  lemma CreateAfterAccumulating(b: NzbFileBuilder, name: string, groups: seq<string>, segments: seq<Segment>)
    ensures AddSegments(AddGroups(b.SetFilename(name), groups), segments).Create()
            == Built(EmptyFileBuilder, Ok(NzbFile(name, b.groups + groups, b.segments + segments)))
  {
    AddGroupsAppends(b.SetFilename(name), groups);
    AddSegmentsAppends(AddGroups(b.SetFilename(name), groups), segments);
  }

  /** The last filename set is the one that sticks. */
  lemma LastFilenameWins(b: NzbFileBuilder, first: string, second: string)
    ensures b.SetFilename(first).SetFilename(second) == b.SetFilename(second)
  {
  }
}
