/** The avatar initials of the page header. */
module Header {
  import opened Wrappers
  import opened Seqs
  import opened Text

  /** `.map((n) => n[0]).join("")`: the first character of every piece; an
      empty piece has none and adds nothing to the joined text. */
  function FirstChars(pieces: seq<string>): string {
    if pieces == [] then ""
    else (if pieces[0] == "" then "" else [pieces[0][0]]) + FirstChars(pieces[1..])
  }

  /** The header's `initials`: the first characters of the space-separated
      pieces of the name, or "П" when there is no name or it is empty. */
  function Initials(name: Option<string>): string {
    if name.Some? && name.value != "" then FirstChars(Split(name.value, ' ')) else "П"
  }

  /** Reference definition: the characters of `s` that begin a word, that
      is, the non-space characters at the start or after a space.
      `atStart` says whether the character before `s` was a space or
      nothing. */
  function WordStarts(s: string, atStart: bool): (r: string)
    ensures |r| <= |s|
    ensures ' ' !in r
  {
    if s == [] then ""
    else if s[0] == ' ' then WordStarts(s[1..], true)
    else (if atStart then [s[0]] else "") + WordStarts(s[1..], false)
  }

  /** The initials of a name are the characters that begin its words. */
  lemma {:induction false} FirstCharsAreWordStarts(s: string)
    ensures FirstChars(Split(s, ' ')) == WordStarts(s, true)
    ensures FirstChars(Split(s, ' ')[1..]) == WordStarts(s, false)
  {
    if s != [] {
      FirstCharsAreWordStarts(s[1..]);
      var rest := Split(s[1..], ' ');
      if s[0] == ' ' {
        assert Split(s, ' ') == [""] + rest;
      } else {
        assert Split(s, ' ') == [[s[0]] + rest[0]] + rest[1..];
      }
    }
  }

  function NonEmpty(piece: string): bool {
    piece != ""
  }

  /** One character per non-empty piece: leading, trailing and doubled
      spaces give empty pieces, which contribute nothing. */
  lemma {:induction false} FirstCharsLength(pieces: seq<string>)
    ensures |FirstChars(pieces)| == |Filter(pieces, NonEmpty)|
  {
    if pieces != [] {
      FirstCharsLength(pieces[1..]);
    }
  }

  /** A missing or empty name gives "П"; any other name gives its word
      starts, one character per non-empty space-separated piece, and no
      space. */
  lemma InitialsSpec(name: Option<string>)
    ensures name.None? || name.value == "" ==> Initials(name) == "П"
    ensures name.Some? && name.value != "" ==>
      Initials(name) == WordStarts(name.value, true) &&
      |Initials(name)| == |Filter(Split(name.value, ' '), NonEmpty)| &&
      ' ' !in Initials(name)
  {
    if name.Some? && name.value != "" {
      FirstCharsAreWordStarts(name.value);
      FirstCharsLength(Split(name.value, ' '));
    }
  }

  /** A one-word name gives its first character. */
  lemma SingleWordInitial(word: string)
    requires word != "" && ' ' !in word
    ensures Initials(Some(word)) == [word[0]]
  {
    SplitNoSeparator(word, ' ');
    assert [word][1..] == [];
    assert FirstChars([word]) == [word[0]] + FirstChars([]);
  }
}
