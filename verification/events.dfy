/** The XML reader's output as the parsers see it: an already tokenised list of
    events. Unescaping and UTF-8 decoding are done by the reader; where they
    can fail, the event carries `None` instead of the text. */
module Events {
  import opened Common

  const FileTag: string := "file"
  const SegmentTag: string := "segment"
  const GroupTag: string := "group"
  const SubjectKey: string := "subject"
  const BytesKey: string := "bytes"
  const NumberKey: string := "number"

  /** One attribute of a start tag: its key and its unescaped value (`None`
      when unescaping the value fails), or an attribute the reader could not
      read at all. */
  datatype Attribute =
    | Attribute(key: string, value: Option<string>)
    | MalformedAttribute

  datatype Event =
      /** A start tag: its name, its attributes in order, and the result of
          unescaping and decoding the tag's own content (its name and
          attributes as written), `None` when that fails. */
    | Start(name: string, attributes: seq<Attribute>, decoded: Option<string>)
    | End(name: string)
      /** A text node, unescaped (`None` when unescaping fails). */
    | Text(text: Option<string>)
    | Eof
      /** The reader reported malformed XML. */
    | Malformed
      /** Any other event: empty element, CDATA, comment, declaration,
          processing instruction or doctype. */
    | Other

  predicate IsEnd(e: Event, name: string)
  {
    e.End? && e.name == name
  }

  predicate IsStart(e: Event, name: string)
  {
    e.Start? && e.name == name
  }

  /** Number of `file` end tags before the end of the stream. */
  function FileEndsBeforeEof(events: seq<Event>): nat
  {
    if |events| == 0 || events[0].Eof? then 0
    else (if IsEnd(events[0], FileTag) then 1 else 0) + FileEndsBeforeEof(events[1..])
  }
}
