/** The attribute loops both parsers run over a `file` or a `segment` start
    tag. Each walks the attributes in order: an attribute the reader cannot
    read aborts the parse, a `subject` names the file (the last one wins), and
    a `bytes` or `number` whose value is not a `u32` is silently skipped.
    The reader refuses a key repeated within one tag, so a repeated key
    arrives here as a `MalformedAttribute`. */
module Tags {
  import opened Common
  import opened Text
  import opened Events

  /** The attribute loop over a `file` start tag, from the filename found so
      far: the filename the tag sets, if any, or the error it aborts with. */
  function ScanFileAttributes(attrs: seq<Attribute>, found: Option<string>): Result<Option<string>>
    decreases |attrs|
  {
    if |attrs| == 0 then Ok(found)
    else
      match attrs[0]
      case MalformedAttribute => Err(AttributeError)
      case Attribute(key, value) =>
        if key != SubjectKey then ScanFileAttributes(attrs[1..], found)
        else
          match value
          case None => Err(AttributeError)
          case Some(subject) =>
            match FilenameFromSubject(subject)
            case None => Err(FilenameNotInSubject)
            case Some(name) => ScanFileAttributes(attrs[1..], Some(name))
  }

  function FileAttributes(attrs: seq<Attribute>): Result<Option<string>>
  {
    ScanFileAttributes(attrs, None)
  }

  /** The attribute loop over a `segment` start tag, from the values found so
      far: the `bytes` and `number` values the tag carries, or the error it
      aborts with. */
  function ScanSegmentAttributes(attrs: seq<Attribute>, bytes: Option<u32>, number: Option<u32>)
    : Result<(Option<u32>, Option<u32>)>
    decreases |attrs|
  {
    if |attrs| == 0 then Ok((bytes, number))
    else
      match attrs[0]
      case MalformedAttribute => Err(AttributeError)
      case Attribute(key, value) =>
        if key == BytesKey then
          match value
          case None => Err(AttributeError)
          case Some(text) => ScanSegmentAttributes(attrs[1..], ParseU32(text).Or(bytes), number)
        else if key == NumberKey then
          match value
          case None => Err(AttributeError)
          case Some(text) => ScanSegmentAttributes(attrs[1..], bytes, ParseU32(text).Or(number))
        else ScanSegmentAttributes(attrs[1..], bytes, number)
  }

  function SegmentAttributes(attrs: seq<Attribute>): Result<(Option<u32>, Option<u32>)>
  {
    ScanSegmentAttributes(attrs, None, None)
  }

  // ---------------------------------------------------------------------------
  // Reference definitions: what each attribute contributes on its own.

  /** The error a single attribute of a `file` start tag aborts the parse with. */
  function FileAttributeError(a: Attribute): Option<Error>
  {
    match a
    case MalformedAttribute => Some(AttributeError)
    case Attribute(key, value) =>
      if key != SubjectKey then None
      else if value.None? then Some(AttributeError)
      else if FilenameFromSubject(value.value).None? then Some(FilenameNotInSubject)
      else None
  }

  /** The filename a single attribute names, if it is a readable `subject`. */
  function SubjectFilename(a: Attribute): Option<string>
  {
    if a.Attribute? && a.key == SubjectKey && a.value.Some? then FilenameFromSubject(a.value.value) else None
  }

  /** The filename named by the last `subject` attribute that names one. */
  function LastFilename(attrs: seq<Attribute>): (r: Option<string>)
    ensures r.Some? ==>
      exists i :: 0 <= i < |attrs| && SubjectFilename(attrs[i]) == r
        && forall j :: i < j < |attrs| ==> SubjectFilename(attrs[j]).None?
    ensures r.None? <==> forall i :: 0 <= i < |attrs| ==> SubjectFilename(attrs[i]).None?
  {
    if |attrs| == 0 then None
    else
      var r := LastFilename(attrs[1..]).Or(SubjectFilename(attrs[0]));
      assert forall i :: 0 < i < |attrs| ==> attrs[i] == attrs[1..][i - 1];
      r
  }

  /** Whether a single attribute of a `segment` start tag aborts the parse. */
  predicate SegmentAttributeFails(a: Attribute)
  {
    a.MalformedAttribute? || ((a.key == BytesKey || a.key == NumberKey) && a.value.None?)
  }

  /** The number a single attribute carries under `key`, if its value parses. */
  function NumberValue(a: Attribute, key: string): Option<u32>
  {
    if a.Attribute? && a.key == key && a.value.Some? then ParseU32(a.value.value) else None
  }

  /** The value of the last attribute under `key` whose value parses. */
  function LastNumber(attrs: seq<Attribute>, key: string): (r: Option<u32>)
    ensures r.Some? ==>
      exists i :: 0 <= i < |attrs| && NumberValue(attrs[i], key) == r
        && forall j :: i < j < |attrs| ==> NumberValue(attrs[j], key).None?
    ensures r.None? <==> forall i :: 0 <= i < |attrs| ==> NumberValue(attrs[i], key).None?
  {
    if |attrs| == 0 then None
    else
      var r := LastNumber(attrs[1..], key).Or(NumberValue(attrs[0], key));
      assert forall i :: 0 < i < |attrs| ==> attrs[i] == attrs[1..][i - 1];
      r
  }

  // ---------------------------------------------------------------------------
  // The loops agree with the reference definitions.

  lemma {:induction false} ScanFileAttributesSpec(attrs: seq<Attribute>, found: Option<string>)
    ensures var r := ScanFileAttributes(attrs, found);
      && (r.Err? <==> exists i :: 0 <= i < |attrs| && FileAttributeError(attrs[i]).Some?)
      && (r.Err? ==> exists i :: 0 <= i < |attrs| && FileAttributeError(attrs[i]) == Some(r.error)
                       && forall j :: 0 <= j < i ==> FileAttributeError(attrs[j]).None?)
      && (r.Ok? ==> r.value == LastFilename(attrs).Or(found))
    decreases |attrs|
  {
    if |attrs| > 0 {
      var a, rest := attrs[0], attrs[1..];
      assert forall i :: 0 < i < |attrs| ==> attrs[i] == rest[i - 1];
      if FileAttributeError(a).None? {
        var found' := SubjectFilename(a).Or(found);
        ScanFileAttributesSpec(rest, found');
        var r := ScanFileAttributes(attrs, found);
        assert r == ScanFileAttributes(rest, found');
        if r.Err? {
          var i :| 0 <= i < |rest| && FileAttributeError(rest[i]) == Some(r.error)
                   && forall j :: 0 <= j < i ==> FileAttributeError(rest[j]).None?;
          assert FileAttributeError(attrs[i + 1]) == Some(r.error);
        }
      }
    }
  }

  /** A `file` start tag aborts exactly when one of its attributes does, with
      the error of the first such attribute; otherwise it sets the filename of
      the last `subject`, or nothing if it has none. */
  lemma FileAttributesSpec(attrs: seq<Attribute>)
    ensures var r := FileAttributes(attrs);
      && (r.Err? <==> exists i :: 0 <= i < |attrs| && FileAttributeError(attrs[i]).Some?)
      && (r.Err? ==> exists i :: 0 <= i < |attrs| && FileAttributeError(attrs[i]) == Some(r.error)
                       && forall j :: 0 <= j < i ==> FileAttributeError(attrs[j]).None?)
      && (r.Ok? ==> r.value == LastFilename(attrs))
  {
    ScanFileAttributesSpec(attrs, None);
  }

  lemma {:induction false} ScanSegmentAttributesSpec(attrs: seq<Attribute>, bytes: Option<u32>, number: Option<u32>)
    ensures var r := ScanSegmentAttributes(attrs, bytes, number);
      && (r.Err? <==> exists i :: 0 <= i < |attrs| && SegmentAttributeFails(attrs[i]))
      && (r.Err? ==> r.error == AttributeError)
      && (r.Ok? ==> r.value == (LastNumber(attrs, BytesKey).Or(bytes), LastNumber(attrs, NumberKey).Or(number)))
    decreases |attrs|
  {
    if |attrs| > 0 {
      var a, rest := attrs[0], attrs[1..];
      assert forall i :: 0 < i < |attrs| ==> attrs[i] == rest[i - 1];
      if !SegmentAttributeFails(a) {
        ScanSegmentAttributesSpec(rest, NumberValue(a, BytesKey).Or(bytes), NumberValue(a, NumberKey).Or(number));
      }
    }
  }

  /** A `segment` start tag aborts exactly when one of its attributes cannot be
      read; otherwise it carries the last parseable `bytes` and `number`
      values, values that do not parse being skipped. */
  lemma SegmentAttributesSpec(attrs: seq<Attribute>)
    ensures var r := SegmentAttributes(attrs);
      && (r.Err? <==> exists i :: 0 <= i < |attrs| && SegmentAttributeFails(attrs[i]))
      && (r.Err? ==> r.error == AttributeError)
      && (r.Ok? ==> r.value == (LastNumber(attrs, BytesKey), LastNumber(attrs, NumberKey)))
  {
    ScanSegmentAttributesSpec(attrs, None, None);
  }
}
