/** Which files of an Archive.org item are audio, and the name a track is shown
    under (src/pages/AlbumDetail.tsx; the same `isAudioFile` is in src/pages/MusicPlayer.tsx). */
module Audio {
  import opened Text
  import opened Seqs

  /** An entry of an item's `files` list; `format` and `title` may be absent. */
  datatype FileEntry = FileEntry(name: string, format: Option<string>, title: Option<string>)

  const AudioExtensions: seq<string> := [".mp3", ".ogg", ".oga", ".flac", ".wav", ".aif", ".aiff", ".m4a"]

  predicate HasAudioExtension(name: string) {
    exists i :: 0 <= i < |AudioExtensions| && EndsWith(Lower(name), AudioExtensions[i])
  }

  /** `isAudioFile`: the format mentions audio, or the name has a known audio extension,
      both compared in lower case. A missing format counts as "". */
  predicate IsAudioFile(f: FileEntry) {
    Contains(Lower(f.format.GetOr("")), "audio") || HasAudioExtension(f.name)
  }

  /** Upper or lower case in the name or format makes no difference. */
  lemma AudioIgnoresCase(f: FileEntry)
    ensures IsAudioFile(f) == IsAudioFile(FileEntry(Lower(f.name), Some(Lower(f.format.GetOr(""))), f.title))
  {
    LowerIdempotent(f.name);
    LowerIdempotent(f.format.GetOr(""));
  }

  /** Without a format, a known extension decides in either case; any other name is not audio. */
  lemma AudioExamples()
    ensures IsAudioFile(FileEntry("Side A.MP3", None, None))
    ensures IsAudioFile(FileEntry("take1.aiff", Some("JPEG"), None))
    ensures IsAudioFile(FileEntry("x", Some("VBR Audio"), None))
    ensures !IsAudioFile(FileEntry("cover.jpg", None, None))
  {
    assert EndsWith(Lower("Side A.MP3"), AudioExtensions[0]) by {
      assert Lower("Side A.MP3")[6..] == ".mp3";
    }
    assert EndsWith(Lower("take1.aiff"), AudioExtensions[6]);
    ContainsAt(Lower("VBR Audio"), "audio", 4);
    var low := Lower("cover.jpg");
    assert low == "cover.jpg";
    assert !Contains(Lower(""), "audio");
    forall i | 0 <= i < |AudioExtensions|
      ensures !EndsWith(low, AudioExtensions[i])
    {
      var e := AudioExtensions[i];
      if |e| <= |low| {
        assert low[|low| - |e|..][|e| - 1] == 'g';
      }
    }
  }

  /** Index of the last "." in s, if there is one. */
  function LastDot(s: string): (r: Option<nat>)
    ensures r.Some? ==> r.value < |s| && s[r.value] == '.' && '.' !in s[r.value + 1..]
    ensures r.None? ==> '.' !in s
  {
    if s == [] then None
    else if s[|s| - 1] == '.' then Some(|s| - 1)
    else
      var r := LastDot(s[..|s| - 1]);
      assert r.Some? ==> s[r.value + 1..] == s[..|s| - 1][r.value + 1..] + [s[|s| - 1]];
      assert s == s[..|s| - 1] + [s[|s| - 1]];
      r
  }

  /** A "." whose tail holds no other "." is the last one. */
  lemma {:induction false} LastDotAt(s: string, k: nat)
    requires k < |s| && s[k] == '.' && '.' !in s[k + 1..]
    ensures LastDot(s) == Some(k)
    decreases |s|
  {
    if k != |s| - 1 {
      assert s[|s| - 1] == s[k + 1..][|s| - 2 - k];
      assert s[..|s| - 1][k + 1..] == s[k + 1..][..|s| - 2 - k];
      LastDotAt(s[..|s| - 1], k);
    }
  }

  /** What `[^/.]+` matches: one or more characters, none of them "." or "/". */
  predicate IsExtension(e: string) {
    e != [] && '.' !in e && '/' !in e
  }

  /** `replace(/\.[^/.]+$/, "")`: removes a final "." and the extension after it. */
  function StripExtension(s: string): string {
    match LastDot(s)
    case Some(k) => if IsExtension(s[k + 1..]) then s[..k] else s
    case None => s
  }

  /** Either exactly one trailing ".ext" is removed, or the name has no such ending
      and comes back unchanged. */
  lemma StripExtensionShape(s: string)
    ensures var r := StripExtension(s);
      || (|r| < |s| && s == r + ['.'] + s[|r| + 1..] && IsExtension(s[|r| + 1..]))
      || (r == s && forall k :: 0 <= k < |s| && s[k] == '.' ==> !IsExtension(s[k + 1..]))
  {
    match LastDot(s)
    case None =>
    case Some(k) =>
      if IsExtension(s[k + 1..]) {
        assert s == s[..k] + ['.'] + s[k + 1..];
      } else {
        forall j | 0 <= j < |s| && s[j] == '.'
          ensures !IsExtension(s[j + 1..])
        {
          if j < k {
            assert s[j + 1..][k - j - 1] == '.';
          }
        }
      }
  }

  /** A base name followed by "." and an extension loses exactly that ending. */
  lemma StripExtensionAppend(base: string, ext: string)
    requires IsExtension(ext)
    ensures StripExtension(base + ['.'] + ext) == base
  {
    var s := base + ['.'] + ext;
    assert s[|base| + 1..] == ext;
    LastDotAt(s, |base|);
    assert s[..|base|] == base;
  }

  predicate IsDash(c: char) {
    c == '_' || c == '-'
  }

  /** Drops the leading run of "_" and "-". */
  function DropDashes(s: string): (r: string)
    ensures |r| <= |s|
  {
    if s != [] && IsDash(s[0]) then DropDashes(s[1..]) else s
  }

  /** `replace(/[_-]+/g, " ")`: every maximal run of "_" and "-" becomes one space. */
  function DashesToSpaces(s: string): (r: string)
    ensures forall i :: 0 <= i < |r| ==> !IsDash(r[i])
    decreases |s|
  {
    if s == [] then []
    else if IsDash(s[0]) then [' '] + DashesToSpaces(DropDashes(s[1..]))
    else [s[0]] + DashesToSpaces(s[1..])
  }

  predicate NoDash(s: string) {
    forall i :: 0 <= i < |s| ==> !IsDash(s[i])
  }

  lemma {:induction false} DashesToSpacesNone(s: string)
    requires NoDash(s)
    ensures DashesToSpaces(s) == s
  {
    if s != [] {
      DashesToSpacesNone(s[1..]);
    }
  }

  lemma {:induction false} DropDashesRun(run: string, b: string)
    requires forall i :: 0 <= i < |run| ==> IsDash(run[i])
    requires b == [] || !IsDash(b[0])
    ensures DropDashes(run + b) == b
  {
    if run != [] {
      assert (run + b)[1..] == run[1..] + b;
      DropDashesRun(run[1..], b);
    } else {
      assert run + b == b;
    }
  }

  /** A run of dashes between dash-free text and text that does not start with a dash
      is replaced by one space, and the text before it is kept. */
  lemma {:induction false} DashRunBecomesSpace(a: string, run: string, b: string)
    requires NoDash(a) && run != [] && forall i :: 0 <= i < |run| ==> IsDash(run[i])
    requires b == [] || !IsDash(b[0])
    ensures DashesToSpaces(a + run + b) == a + [' '] + DashesToSpaces(b)
    decreases |a|
  {
    if a == [] {
      assert a + run + b == run + b;
      assert (run + b)[1..] == run[1..] + b;
      DropDashesRun(run[1..], b);
    } else {
      assert (a + run + b)[0] == a[0];
      assert (a + run + b)[1..] == a[1..] + run + b;
      DashRunBecomesSpace(a[1..], run, b);
    }
  }

  /** `getTrackName`: the title when it is non-empty, else the file name without its
      extension, with dash runs turned into spaces and the ends trimmed. */
  function TrackName(f: FileEntry): string {
    if f.title.Some? && f.title.value != [] then f.title.value
    else Trim(DashesToSpaces(StripExtension(f.name)))
  }

  /** A derived name never holds "_" or "-" and never starts or ends with white space. */
  lemma TrackNameShape(f: FileEntry)
    ensures f.title.Some? && f.title.value != [] ==> TrackName(f) == f.title.value
    ensures !(f.title.Some? && f.title.value != []) ==> NoOuterSpace(TrackName(f)) && NoDash(TrackName(f))
  {
    if !(f.title.Some? && f.title.value != []) {
      var d := DashesToSpaces(StripExtension(f.name));
      var k := TrimSlice(d);
      forall i | 0 <= i < |Trim(d)|
        ensures !IsDash(Trim(d)[i])
      {
        assert Trim(d)[i] == d[k + i];
      }
    }
  }

  /** An untitled file named `base.ext` shows as `base` when base is already clean. */
  lemma TrackNameOfCleanFile(base: string, ext: string, format: Option<string>)
    requires IsExtension(ext) && NoDash(base) && NoOuterSpace(base)
    ensures TrackName(FileEntry(base + ['.'] + ext, format, None)) == base
    ensures TrackName(FileEntry(base + ['.'] + ext, format, Some(""))) == base
  {
    StripExtensionAppend(base, ext);
    DashesToSpacesNone(base);
    TrimNoOuterSpace(base);
  }

  /** The track list: the item's files that are audio, in order; no `files` means none. */
  function AudioTracks(files: Option<seq<FileEntry>>): seq<FileEntry> {
    Filter(IsAudioFile, files.GetOr([]))
  }

  /** Each track is an audio file of the item, every audio file is listed, order is kept. */
  lemma AudioTracksFacts(files: Option<seq<FileEntry>>, more: seq<FileEntry>)
    ensures files.None? ==> AudioTracks(files) == []
    ensures forall t :: t in AudioTracks(files) ==> IsAudioFile(t) && t in files.GetOr([])
    ensures forall f :: f in files.GetOr([]) && IsAudioFile(f) ==> f in AudioTracks(files)
    ensures AudioTracks(Some(files.GetOr([]) + more)) == AudioTracks(files) + AudioTracks(Some(more))
  {
    FilterAppend(IsAudioFile, files.GetOr([]), more);
  }
}
