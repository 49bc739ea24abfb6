/** Identifiers, the episode lifecycle and the text forms stored in the database. */
module Domain {
  import opened Wrappers

  // ----- identifiers -----

  predicate SlugChar(c: char) {
    'a' <= c <= 'z' || 'A' <= c <= 'Z' || '0' <= c <= '9' || c in "-_."
  }

  predicate ValidSlug(s: string) {
    |s| > 0 && forall i :: 0 <= i < |s| ==> SlugChar(s[i])
  }

  type ShowSlug = s: string | ValidSlug(s) witness "a"
  type EpisodeId = s: string | |s| > 0 witness "1"

  datatype InvalidId = InvalidId(kind: string)

  /** Accepts exactly the non-empty strings over the slug alphabet, unchanged. */
  function ParseSlug(s: string): (r: Result<ShowSlug, InvalidId>)
    ensures r.Success? <==>
              |s| > 0
              && forall i :: 0 <= i < |s| ==>
                   'a' <= s[i] <= 'z' || 'A' <= s[i] <= 'Z' || '0' <= s[i] <= '9' || s[i] == '-' || s[i] == '_' || s[i] == '.'
    ensures r.Success? ==> r.value == s && '/' !in r.value
    ensures r.Failure? ==> r.error.kind == "show slug"
  {
    if ValidSlug(s) then Success(s) else Failure(InvalidId("show slug"))
  }

  // ----- lifecycle -----

  datatype ErrorClass = Network | HttpStatus | Parse | Disk

  datatype EpisodeState =
    | Discovered
    | Downloading
    | Cached
    | Pruned
    | Failed(why: ErrorClass)

  /** The legal edges of the lifecycle. */
  predicate CanTransition(from: EpisodeState, to: EpisodeState) {
    match from
    case Discovered => to.Downloading?
    case Downloading => to.Cached? || to.Failed?
    case Failed(_) => to.Downloading?
    case Cached => to.Downloading? || to.Pruned?
    case Pruned => to.Downloading?
  }

  /** An episode is cached or fails only out of a download, is pruned only out of the cache, and can
      be downloaded from wherever else it stands. */
  lemma EdgesExactly(from: EpisodeState, to: EpisodeState)
    ensures to.Cached? || to.Failed? ==> (CanTransition(from, to) <==> from.Downloading?)
    ensures to.Pruned? ==> (CanTransition(from, to) <==> from.Cached?)
    ensures to.Downloading? ==> (CanTransition(from, to) <==> !from.Downloading?)
    ensures to.Discovered? ==> !CanTransition(from, to)
  {
  }

  // ----- text columns -----

  function ClassText(c: ErrorClass): string {
    match c
    case Network => "network"
    case HttpStatus => "http-status"
    case Parse => "parse"
    case Disk => "disk"
  }

  function ParseClass(s: string): Option<ErrorClass> {
    if s == "network" then Some(Network)
    else if s == "http-status" then Some(HttpStatus)
    else if s == "parse" then Some(Parse)
    else if s == "disk" then Some(Disk)
    else None
  }

  function StateText(s: EpisodeState): string {
    match s
    case Discovered => "discovered"
    case Downloading => "downloading"
    case Cached => "cached"
    case Pruned => "pruned"
    case Failed(_) => "failed"
  }

  function ClassColumn(s: EpisodeState): Option<string> {
    if s.Failed? then Some(ClassText(s.why)) else None
  }

  datatype DecodeError = UnknownState | MissingClass | UnknownClass

  /** Reads the two state columns of a row; every other combination is corrupt. */
  function DecodeState(state: string, cls: Option<string>): Result<EpisodeState, DecodeError> {
    if state == "discovered" then Success(Discovered)
    else if state == "downloading" then Success(Downloading)
    else if state == "cached" then Success(Cached)
    else if state == "pruned" then Success(Pruned)
    else if state == "failed" then
      if cls.None? then Failure(MissingClass)
      else
        var c := ParseClass(cls.value);
        if c.None? then Failure(UnknownClass) else Success(Failed(c.value))
    else Failure(UnknownState)
  }

  /** The class text form is a bijection onto the accepted texts. */
  lemma ClassTextRoundTrip(c: ErrorClass, s: string)
    ensures ParseClass(s) == Some(c) <==> s == ClassText(c)
  {
    assert "parse"[0] == 'p' && "disk"[0] == 'd';
    if c == HttpStatus { assert |"http-status"| == 11; }
  }

  lemma TextsDiffer()
    ensures "cached" != "pruned" && "cached" != "failed" && "pruned" != "failed"
  {
    assert "cached"[0] == 'c' && "pruned"[0] == 'p' && "failed"[0] == 'f';
  }

  /** Writing a state and reading it back is the identity, and a pair of columns reads as
      a state exactly when its state text is that state's and, for failures, its class too. */
  lemma DecodeInvertsEncode(s: EpisodeState, state: string, cls: Option<string>)
    ensures DecodeState(StateText(s), ClassColumn(s)) == Success(s)
    ensures DecodeState(state, cls) == Success(s) <==>
            state == StateText(s) && (s.Failed? ==> cls == ClassColumn(s))
  {
    TextsDiffer();
    if s.Failed? {
      ClassTextRoundTrip(s.why, ClassText(s.why));
      if cls.Some? { ClassTextRoundTrip(s.why, cls.value); }
    }
  }

  // ----- audio types -----

  datatype AudioMime = Mpeg | Mp4 | Aac | Ogg | Other(raw: string)

  function MimeText(m: AudioMime): string {
    match m
    case Mpeg => "audio/mpeg"
    case Mp4 => "audio/mp4"
    case Aac => "audio/aac"
    case Ogg => "audio/ogg"
    case Other(raw) => raw
  }

  function MimeExtension(m: AudioMime): Option<string> {
    match m
    case Mpeg => Some("mp3")
    case Mp4 => Some("m4a")
    case Aac => Some("aac")
    case Ogg => Some("ogg")
    case Other(_) => None
  }

  function ParseMime(raw: string): AudioMime {
    if raw == "audio/mpeg" || raw == "audio/mp3" then Mpeg
    else if raw == "audio/mp4" || raw == "audio/x-m4a" then Mp4
    else if raw == "audio/aac" then Aac
    else if raw == "audio/ogg" then Ogg
    else Other(raw)
  }

  /** Reading a type and writing it again only normalises the two aliases. */
  lemma MimeRoundTrip(raw: string)
    ensures MimeText(ParseMime(raw)) == if raw == "audio/mp3" then "audio/mpeg" else if raw == "audio/x-m4a" then "audio/mp4" else raw
    ensures MimeText(ParseMime(MimeText(ParseMime(raw)))) == MimeText(ParseMime(raw))
  {
    assert |"audio/mpeg"| == 10 && |"audio/mp3"| == 9 && |"audio/mp4"| == 9 && |"audio/x-m4a"| == 11;
    assert |"audio/aac"| == 9 && |"audio/ogg"| == 9;
    assert "audio/mp4"[6] == 'm' && "audio/mp4"[8] == '4' && "audio/mp3"[8] == '3';
    assert "audio/aac"[6] == 'a' && "audio/ogg"[6] == 'o' && "audio/mp3"[6] == 'm';
  }

  /** The extension of each known type, by its text. */
  lemma ExtensionByText(raw: string)
    ensures MimeExtension(ParseMime(raw)) ==
            if raw == "audio/mpeg" || raw == "audio/mp3" then Some("mp3")
            else if raw == "audio/mp4" || raw == "audio/x-m4a" then Some("m4a")
            else if raw == "audio/aac" then Some("aac")
            else if raw == "audio/ogg" then Some("ogg")
            else None
  {
  }
}
