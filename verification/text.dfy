/** String helpers both parsers rely on: splitting on a character (Rust's
    `str::split` with a one-character pattern), taking the filename out of a
    `subject` attribute, and parsing an unsigned 32-bit decimal
    (`str::parse::<u32>`). */
module Text {
  import opened Common

  const Quote: char := '"'

  /** Index of the first occurrence of `c` in `s`, if any. */
  function IndexOf(s: string, c: char): (r: Option<nat>)
    ensures r.None? <==> c !in s
    ensures r.Some? ==> r.value < |s| && s[r.value] == c && c !in s[..r.value]
  {
    if |s| == 0 then None
    else if s[0] == c then Some(0)
    else
      match IndexOf(s[1..], c)
      case None => None
      case Some(i) =>
        assert s[1..][..i] == s[1..i + 1];
        Some(i + 1)
  }

  /** The pieces of `s` between occurrences of `sep`, as `str::split` yields them:
      there is always one piece more than there are separators. */
  function Split(s: string, sep: char): (pieces: seq<string>)
    ensures |pieces| >= 1
    ensures forall k | 0 <= k < |pieces| :: sep !in pieces[k]
    ensures sep !in s ==> pieces == [s]
    decreases |s|
  {
    match IndexOf(s, sep)
    case None => [s]
    case Some(i) => [s[..i]] + Split(s[i + 1..], sep)
  }

  /** The inverse of `Split`: the pieces glued back with `sep` between them. */
  function Join(pieces: seq<string>, sep: char): string
  {
    if |pieces| == 0 then []
    else if |pieces| == 1 then pieces[0]
    else pieces[0] + [sep] + Join(pieces[1..], sep)
  }

  lemma JoinCons(head: string, rest: seq<string>, sep: char)
    requires |rest| >= 1
    ensures Join([head] + rest, sep) == head + [sep] + Join(rest, sep)
  {
    assert ([head] + rest)[1..] == rest;
  }

  lemma SplitAt(s: string, sep: char, i: nat)
    requires IndexOf(s, sep) == Some(i)
    ensures Split(s, sep) == [s[..i]] + Split(s[i + 1..], sep)
  {
  }

  lemma Around(s: string, i: nat)
    requires i < |s|
    ensures s[..i] + [s[i]] + s[i + 1..] == s
  {
  }

  lemma {:induction false} JoinSplit(s: string, sep: char)
    ensures Join(Split(s, sep), sep) == s
    decreases |s|
  {
    match IndexOf(s, sep)
    case None =>
    case Some(i) =>
      SplitAt(s, sep, i);
      JoinSplit(s[i + 1..], sep);
      JoinCons(s[..i], Split(s[i + 1..], sep), sep);
      Around(s, i);
  }

  /** `name` follows the first double quote of `subject`, at index `i`, and
      runs up to the next double quote or the end of the subject. */
  predicate QuotedAt(subject: string, i: nat, name: string)
  {
    i + 1 + |name| <= |subject| && subject[i] == Quote && Quote !in subject[..i]
    && subject[i + 1..i + 1 + |name|] == name
    && (i + 1 + |name| == |subject| || subject[i + 1 + |name|] == Quote)
  }

  /** The filename named by a `subject` attribute: the text after its first
      double quote, up to the next double quote or the end of the subject.
      A subject without a double quote names no file. */
  function FilenameFromSubject(subject: string): (r: Option<string>)
    ensures r.None? <==> Quote !in subject
    ensures r.Some? ==> Quote !in r.value
    ensures r.Some? ==> exists i :: QuotedAt(subject, i, r.value)
  {
    match IndexOf(subject, Quote)
    case None => None
    case Some(i) =>
      var rest := subject[i + 1..];
      match IndexOf(rest, Quote)
      case None =>
        assert QuotedAt(subject, i, rest) by {
          assert subject[i + 1..i + 1 + |rest|] == rest;
        }
        Some(rest)
      case Some(j) =>
        assert QuotedAt(subject, i, rest[..j]) by {
          assert subject[i + 1..i + 1 + j] == rest[..j];
          assert subject[i + 1 + j] == rest[j];
        }
        Some(rest[..j])
  }

  /** The filename is the second piece of the subject split on double quotes,
      which is what `subject.split("\"").nth(1)` takes. */
  lemma FilenameIsSecondPiece(subject: string)
    ensures FilenameFromSubject(subject)
            == (var pieces := Split(subject, Quote); if |pieces| >= 2 then Some(pieces[1]) else None)
  {
    match IndexOf(subject, Quote)
    case None =>
    case Some(i) =>
      var rest := subject[i + 1..];
      assert Split(subject, Quote) == [subject[..i]] + Split(rest, Quote);
      match IndexOf(rest, Quote)
      case None =>
        assert Split(rest, Quote) == [rest];
      case Some(j) =>
        assert Split(rest, Quote) == [rest[..j]] + Split(rest[j + 1..], Quote);
  }

  /** A name between two double quotes, after a prefix without one, is what the
      subject yields, whatever follows the closing quote. */
  lemma {:induction false} QuotedFilename(prefix: string, name: string, suffix: string)
    requires Quote !in prefix && Quote !in name
    ensures FilenameFromSubject(prefix + [Quote] + name + [Quote] + suffix) == Some(name)
  {
    var s := prefix + [Quote] + name + [Quote] + suffix;
    var i := |prefix|;
    assert s[..i] == prefix;
    assert s[i] == Quote;
    assert IndexOf(s, Quote) == Some(i);
    var rest := s[i + 1..];
    assert rest == name + [Quote] + suffix;
    assert rest[..|name|] == name;
    assert rest[|name|] == Quote;
    assert IndexOf(rest, Quote) == Some(|name|);
  }

  /** With no closing double quote the filename runs to the end of the subject. */
  lemma {:induction false} UnterminatedFilename(prefix: string, name: string)
    requires Quote !in prefix && Quote !in name
    ensures FilenameFromSubject(prefix + [Quote] + name) == Some(name)
  {
    var s := prefix + [Quote] + name;
    var i := |prefix|;
    assert s[..i] == prefix;
    assert s[i] == Quote;
    assert IndexOf(s, Quote) == Some(i);
    assert s[i + 1..] == name;
  }

  predicate IsDigit(c: char)
  {
    '0' <= c <= '9'
  }

  predicate AllDigits(s: string)
  {
    forall k | 0 <= k < |s| :: IsDigit(s[k])
  }

  function DigitChar(d: nat): (c: char)
    requires d < 10
    ensures IsDigit(c)
  {
    ('0' as int + d) as char
  }

  /** The number a string of decimal digits denotes, most significant first. */
  function DecimalValue(digits: string): nat
    requires AllDigits(digits)
  {
    if |digits| == 0 then 0
    else DecimalValue(digits[..|digits| - 1]) * 10 + (digits[|digits| - 1] as int - '0' as int)
  }

  /** `str::parse::<u32>`: an optional single `+`, then one or more ASCII
      digits whose value fits in 32 bits; anything else is an error. */
  function ParseU32(s: string): (r: Option<u32>)
    ensures |s| == 0 ==> r.None?
    ensures r.Some? ==> |s| > 0 && (s[0] == '+' || IsDigit(s[0])) && AllDigits(s[1..])
    ensures r.Some? && s[0] == '+' ==> |s| > 1
    ensures |s| > 0 && AllDigits(s) ==> (r.Some? <==> DecimalValue(s) < U32_LIMIT)
    ensures r.Some? && IsDigit(s[0]) ==> r.value == DecimalValue(s)
    ensures |s| > 1 && s[0] == '+' && AllDigits(s[1..]) ==>
      (r.Some? <==> DecimalValue(s[1..]) < U32_LIMIT) && (r.Some? ==> r.value == DecimalValue(s[1..]))
  {
    var digits := if |s| > 0 && s[0] == '+' then s[1..] else s;
    if |digits| > 0 && AllDigits(digits) && DecimalValue(digits) < U32_LIMIT
    then
      assert s[1..] == digits || s[1..] == digits[1..];
      Some(DecimalValue(digits))
    else None
  }

  /** The shortest decimal spelling of `n`. */
  function FormatDecimal(n: nat): (s: string)
    ensures |s| > 0 && AllDigits(s)
  {
    if n < 10 then [DigitChar(n)] else FormatDecimal(n / 10) + [DigitChar(n % 10)]
  }

  lemma {:induction false} DecimalOfFormat(n: nat)
    ensures DecimalValue(FormatDecimal(n)) == n
  {
    if n >= 10 {
      var s := FormatDecimal(n);
      DecimalOfFormat(n / 10);
      assert s[..|s| - 1] == FormatDecimal(n / 10);
    }
  }

  /** Parsing the decimal spelling of a number gives the number back exactly
      when it fits in 32 bits. */
  lemma ParseFormat(n: nat)
    ensures ParseU32(FormatDecimal(n)) == if n < U32_LIMIT then Some(n) else None
  {
    DecimalOfFormat(n);
    assert FormatDecimal(n)[0] != '+';
  }

  /** A leading `+` is accepted and does not change the value. */
  lemma ParsePlus(n: nat)
    ensures ParseU32(['+'] + FormatDecimal(n)) == if n < U32_LIMIT then Some(n) else None
  {
    DecimalOfFormat(n);
    assert (['+'] + FormatDecimal(n))[1..] == FormatDecimal(n);
  }
}
