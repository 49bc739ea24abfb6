/** Where an episode's audio lives: `media/<show>/<stem>.<extension>` under the data directory. */
module Media {
  import opened Wrappers
  import opened Domain
  import opened Episodes

  /** A resolved, downloadable audio asset. */
  datatype Audio = Audio(urlPath: string, mime: Option<AudioMime>, bytes: Option<nat>)

  predicate Alphanumeric(c: char) {
    'a' <= c <= 'z' || 'A' <= c <= 'Z' || '0' <= c <= '9'
  }

  predicate StemChar(c: char) {
    Alphanumeric(c) || c == '-' || c == '_'
  }

  /** The episode id with every other character replaced by an underscore. */
  function Stem(id: EpisodeId): (s: string)
    ensures |s| == |id| && '.' !in s && '/' !in s
    ensures (forall i :: 0 <= i < |id| ==> StemChar(id[i])) <==> s == id
  {
    seq(|id|, i requires 0 <= i < |id| => if StemChar(id[i]) then id[i] else '_')
  }

  function AfterLastDot(s: string): string {
    if s == "" then ""
    else if s[|s| - 1] == '.' then ""
    else AfterLastDot(s[..|s| - 1]) + [s[|s| - 1]]
  }

  /** A plausible extension at the end of a URL path. */
  function UrlExtension(urlPath: string): (r: Option<string>)
    ensures r.Some? ==> '/' !in r.value
  {
    var ext := AfterLastDot(urlPath);
    if '/' !in ext && 1 <= |ext| <= 4 && (forall i :: 0 <= i < |ext| ==> Alphanumeric(ext[i]))
    then Some(ext) else None
  }

  function ExtensionFor(audio: Audio): (ext: string)
    ensures '/' !in ext
  {
    var known := if audio.mime.Some? then MimeExtension(audio.mime.value) else None;
    if known.Some? then known.value else UrlExtension(audio.urlPath).GetOr("bin")
  }

  function PathText(show: ShowSlug, stem: string, ext: string): Path {
    "media/" + (show + ("/" + (stem + ("." + ext))))
  }

  function MediaPath(key: Key, audio: Audio): Path {
    PathText(key.show, Stem(key.id), ExtensionFor(audio))
  }

  /** `p` is one of the paths the episode may ever be stored at. */
  ghost predicate Owns(key: Key, p: Path) {
    exists ext :: '/' !in ext && p == PathText(key.show, Stem(key.id), ext)
  }

  /** A text is cut in only one way at the first occurrence of a character. */
  lemma {:induction false} CutAtFirst(a: string, x: string, b: string, y: string, c: char)
    requires c !in a && c !in b
    requires a + ([c] + x) == b + ([c] + y)
    ensures a == b && x == y
  {
    var s, t := a + ([c] + x), b + ([c] + y);
    assert a != "" ==> s[0] == a[0] && a[0] in a;
    assert b != "" ==> t[0] == b[0] && b[0] in b;
    assert a == "" <==> s[0] == c;
    assert b == "" <==> t[0] == c;
    if a == "" {
      assert s[1..] == x && t[1..] == y;
    } else {
      assert s[1..] == a[1..] + ([c] + x) && t[1..] == b[1..] + ([c] + y);
      CutAtFirst(a[1..], x, b[1..], y, c);
      assert a == [a[0]] + a[1..] && b == [b[0]] + b[1..];
    }
  }

  /** A media path determines the show, the stem and the extension it was made from. */
  lemma PathTextInjective(show: ShowSlug, stem: string, ext: string, show': ShowSlug, stem': string, ext': string)
    requires '.' !in stem && '.' !in stem'
    requires PathText(show, stem, ext) == PathText(show', stem', ext')
    ensures show == show' && stem == stem' && ext == ext'
  {
    var x, y := stem + ("." + ext), stem' + ("." + ext');
    var p, q := show + ("/" + x), show' + ("/" + y);
    assert ("media/" + p)[6..] == p && ("media/" + q)[6..] == q;
    assert "/" == ['/'] && "." == ['.'];
    CutAtFirst(show, x, show', y, '/');
    CutAtFirst(stem, ext, stem', ext', '.');
  }

  /** Two episodes can only meet at a path when they belong to one show and share a stem. */
  lemma OwnersShareStem(a: Key, b: Key, p: Path)
    requires Owns(a, p) && Owns(b, p)
    ensures a.show == b.show && Stem(a.id) == Stem(b.id)
  {
    var e :| p == PathText(a.show, Stem(a.id), e);
    var f :| p == PathText(b.show, Stem(b.id), f);
    PathTextInjective(a.show, Stem(a.id), e, b.show, Stem(b.id), f);
  }

  /** Characters whose identity the stem loses. */
  predicate Blurred(c: char) {
    !StemChar(c) || c == '_'
  }

  /** Different ids share a stem exactly when they are equally long and differ only where both
      have a character that becomes an underscore. */
  lemma StemsCollideExactly(a: EpisodeId, b: EpisodeId)
    ensures Stem(a) == Stem(b) <==>
              |a| == |b| && forall i :: 0 <= i < |a| ==> a[i] == b[i] || (Blurred(a[i]) && Blurred(b[i]))
  {
    if Stem(a) == Stem(b) {
      forall i | 0 <= i < |a| ensures a[i] == b[i] || (Blurred(a[i]) && Blurred(b[i])) {
        assert Stem(a)[i] == Stem(b)[i];
      }
    }
  }

  /** Such ids exist. */
  lemma StemsCanCollide()
    ensures Stem("1/2") == Stem("1:2")
  {
    assert Stem("1/2") == "1_2" && Stem("1:2") == "1_2";
  }

  /** The stem keeps ASCII letters, digits, hyphens and underscores and blanks out the rest. */
  lemma StemAt(id: EpisodeId, i: nat)
    requires i < |id|
    ensures |Stem(id)| == |id|
    ensures Stem(id)[i] == if 'a' <= id[i] <= 'z' || 'A' <= id[i] <= 'Z' || '0' <= id[i] <= '9' || id[i] == '-' || id[i] == '_'
                           then id[i] else '_'
  {
  }

  lemma {:induction false} AfterDot(a: string, b: string)
    requires '.' !in b
    ensures AfterLastDot(a + ("." + b)) == b
  {
    var s := a + ("." + b);
    if b == "" {
      assert s[|s| - 1] == '.';
    } else {
      var n := |b| - 1;
      assert s[..|s| - 1] == a + ("." + b[..n]);
      assert s[|s| - 1] == b[n] && b[n] in b;
      AfterDot(a, b[..n]);
    }
  }

  lemma {:induction false} NoDot(s: string)
    requires '.' !in s
    ensures AfterLastDot(s) == s
  {
    if s != "" {
      assert s[|s| - 1] in s;
      NoDot(s[..|s| - 1]);
      assert s == s[..|s| - 1] + [s[|s| - 1]];
    }
  }

  /** One to four letters and digits. */
  predicate Short(ext: string) {
    1 <= |ext| <= 4 && forall i :: 0 <= i < |ext| ==> 'a' <= ext[i] <= 'z' || 'A' <= ext[i] <= 'Z' || '0' <= ext[i] <= '9'
  }

  /** The file's extension is that of the resolved type; failing that, what follows the last dot of
      the URL path, if it is one to four letters and digits; failing that, `bin`. */
  lemma ExtensionExactly(audio: Audio, front: string, back: string)
    requires '.' !in back && audio.urlPath == front + ("." + back)
    ensures audio.mime.Some? && MimeExtension(audio.mime.value).Some? ==>
              ExtensionFor(audio) == MimeExtension(audio.mime.value).value
    ensures audio.mime.None? || MimeExtension(audio.mime.value).None? ==>
              ExtensionFor(audio) == if Short(back) then back else "bin"
  {
    AfterDot(front, back);
    assert forall i :: 0 <= i < |back| ==> back[i] in back;
    assert Short(back) ==> '/' !in back;
  }

  /** A path without a dot counts as its own extension, if short enough. */
  lemma ExtensionWithoutDot(audio: Audio)
    requires '.' !in audio.urlPath && audio.mime.None?
    ensures ExtensionFor(audio) == if Short(audio.urlPath) then audio.urlPath else "bin"
  {
    NoDot(audio.urlPath);
    assert Short(audio.urlPath) ==> '/' !in audio.urlPath;
  }

  /** Where an episode's audio lives. */
  lemma MediaPathExactly(key: Key, audio: Audio)
    ensures MediaPath(key, audio) == "media/" + key.show + "/" + Stem(key.id) + "." + ExtensionFor(audio)
  {
    PathParts(key.show, Stem(key.id), ExtensionFor(audio));
  }

  lemma PathParts(show: ShowSlug, stem: string, ext: string)
    ensures PathText(show, stem, ext) == "media/" + show + "/" + stem + "." + ext
    ensures PathText(show, stem, ext) == "media/" + show + "/" + (stem + "." + ext)
  {
    assert stem + ("." + ext) == stem + "." + ext;
  }
}
