/** The extension filter of `library/scanner.rs`: which paths count as audio files, following
    the rules of Rust's `Path::file_name` and `Path::extension` for `/`-separated paths, and
    the `scan` loop that keeps the files the directory walk reports. */
module Scanner {
  import opened Wrappers

  /** `SUPPORTED_EXTENSIONS`, in lower case. */
  const SupportedExtensions: seq<string> := ["mp3", "flac", "ogg", "wav", "m4a", "aac", "opus", "wma"]

  /** The pieces of `p` between the `/` separators, empty pieces included. */
  function Segments(p: string): (r: seq<string>)
    ensures |r| >= 1
    ensures forall k :: 0 <= k < |r| ==> '/' !in r[k]
    decreases |p|
  {
    if '/' in p then
      var i := FirstSlash(p);
      [p[..i]] + Segments(p[i + 1..])
    else
      [p]
  }

  /** The index of the first `/` in `p`. */
  function FirstSlash(p: string): (i: nat)
    requires '/' in p
    ensures i < |p| && p[i] == '/' && '/' !in p[..i]
  {
    if p[0] == '/' then 0
    else
      assert '/' in p[1..] by {
        var j :| 0 <= j < |p| && p[j] == '/';
        assert p[1..][j - 1] == '/';
      }
      var i := 1 + FirstSlash(p[1..]);
      assert p[..i] == [p[0]] + p[1..][..i - 1];
      i
  }

  /** The components `Path::components` yields that can name a file: empty pieces (from
      repeated or trailing separators) and `.` are skipped. */
  function Components(p: string): (r: seq<string>)
    ensures forall k :: 0 <= k < |r| ==> r[k] != "" && r[k] != "." && '/' !in r[k]
  {
    Nonempty(Segments(p))
  }

  function Nonempty(segments: seq<string>): (r: seq<string>)
    requires forall k :: 0 <= k < |segments| ==> '/' !in segments[k]
    ensures forall k :: 0 <= k < |r| ==> r[k] != "" && r[k] != "." && '/' !in r[k]
    ensures |r| <= |segments|
  {
    if segments == [] then []
    else
      var rest := Nonempty(segments[1..]);
      if segments[0] == "" || segments[0] == "." then rest else [segments[0]] + rest
  }

  /** `Path::file_name`: the last component, unless there is none or it is `..`. */
  function FileName(p: string): (r: Option<string>)
    ensures r.Some? ==> r.value != "" && r.value != "." && r.value != ".." && '/' !in r.value
    ensures r.Some? <==> Components(p) != [] && Components(p)[|Components(p)| - 1] != ".."
  {
    var c := Components(p);
    if c == [] || c[|c| - 1] == ".." then None else Some(c[|c| - 1])
  }

  /** The index of the last `.` in `s`, if any. */
  function LastDot(s: string): (r: Option<nat>)
    ensures r.None? <==> '.' !in s
    ensures r.Some? ==> r.value < |s| && s[r.value] == '.' && '.' !in s[r.value + 1..]
  {
    if s == [] then None
    else if s[|s| - 1] == '.' then Some(|s| - 1)
    else
      var r := LastDot(s[..|s| - 1]);
      if r.Some? then
        assert s[r.value + 1..] == s[..|s| - 1][r.value + 1..] + [s[|s| - 1]];
        r
      else
        assert forall k :: 0 <= k < |s| - 1 ==> s[k] == s[..|s| - 1][k];
        r
  }

  /** `rsplit_file_at_dot` followed by `before.and(after)`: the text after the last dot, unless
      there is no dot, or the only dot opens the name (a hidden file such as `.bashrc`). */
  function NameExtension(name: string): (r: Option<string>)
    ensures r.Some? ==> '.' !in r.value
  {
    if name == ".." then None
    else
      match LastDot(name)
      case None => None
      case Some(i) => if i == 0 then None else Some(name[i + 1..])
  }

  /** `Path::extension`. */
  function Extension(p: string): (r: Option<string>)
    ensures FileName(p).None? ==> r.None?
  {
    match FileName(p)
    case None => None
    case Some(name) => NameExtension(name)
  }

  function LowerChar(c: char): (l: char)
    ensures 'A' <= c <= 'Z' ==> l as int == c as int + 32
    ensures !('A' <= c <= 'Z') ==> l == c
  {
    if 'A' <= c <= 'Z' then (c as int + 32) as char else c
  }

  /** `to_lowercase`, on the letters that can occur in a supported extension. */
  function Lower(s: string): (r: string)
    ensures |r| == |s|
    ensures forall k :: 0 <= k < |s| ==> r[k] == LowerChar(s[k])
  {
    seq(|s|, k requires 0 <= k < |s| => LowerChar(s[k]))
  }

  /** `is_supported_audio_file`. */
  predicate IsSupportedAudioFile(p: string)
  {
    match Extension(p)
    case None => false
    case Some(e) => Lower(e) in SupportedExtensions
  }

  /** A file name split at its last dot into a nonempty stem and a dot-free extension. */
  ghost predicate NameParts(name: string, stem: string, ext: string)
  {
    name == stem + "." + ext && stem != [] && '.' !in ext && name != ".."
  }

  lemma NamePartsOfExtension(name: string) returns (stem: string, ext: string)
    requires name != ".." && NameExtension(name).Some?
    ensures NameParts(name, stem, ext) && NameExtension(name) == Some(ext)
  {
    var i := LastDot(name).value;
    stem, ext := name[..i], name[i + 1..];
    assert name == stem + "." + ext;
  }

  lemma ExtensionOfNameParts(name: string, stem: string, ext: string)
    requires NameParts(name, stem, ext)
    ensures NameExtension(name) == Some(ext)
  {
    var i := |stem|;
    assert name[i] == '.';
    assert name[i + 1..] == ext;
    var d := LastDot(name);
    assert d.Some?;
  }

  /** A path is accepted exactly when its file name is a nonempty stem, a dot, and an extension
      without dots that lowercases to a supported one. */
  lemma SupportedHasSupportedName(p: string) returns (stem: string, ext: string)
    requires IsSupportedAudioFile(p)
    ensures FileName(p).Some? && NameParts(FileName(p).value, stem, ext)
    ensures Lower(ext) in SupportedExtensions
  {
    stem, ext := NamePartsOfExtension(FileName(p).value);
  }

  lemma SupportedNameIsSupported(p: string, stem: string, ext: string)
    requires FileName(p).Some? && NameParts(FileName(p).value, stem, ext)
    requires Lower(ext) in SupportedExtensions
    ensures IsSupportedAudioFile(p)
  {
    ExtensionOfNameParts(FileName(p).value, stem, ext);
  }

  /** A file name without a dot is never accepted. */
  lemma NoDotNotSupported(p: string)
    requires FileName(p).None? || '.' !in FileName(p).value
    ensures !IsSupportedAudioFile(p)
  {
  }

  /** The case of the extension does not matter. */
  lemma SupportedIgnoresCase(stem: string, e1: string, e2: string)
    requires stem != [] && '/' !in stem && stem != "." && '.' !in e1 && '.' !in e2 && '/' !in e1 && '/' !in e2
    requires Lower(e1) == Lower(e2)
    ensures IsSupportedAudioFile(stem + "." + e1) <==> IsSupportedAudioFile(stem + "." + e2)
  {
    NotParent(stem, e1);
    NotParent(stem, e2);
    OneComponent(stem + "." + e1);
    OneComponent(stem + "." + e2);
    ExtensionOfNameParts(stem + "." + e1, stem, e1);
    ExtensionOfNameParts(stem + "." + e2, stem, e2);
  }

  lemma NotParent(stem: string, ext: string)
    requires stem != [] && stem != "."
    ensures stem + "." + ext != ".."
  {
    assert (stem + "." + ext)[0] == stem[0];
    assert |stem + "." + ext| == |stem| + 1 + |ext|;
  }

  /** A name without separators is its own file name. */
  lemma OneComponent(name: string)
    requires '/' !in name && name != "" && name != "." && name != ".."
    ensures FileName(name) == Some(name)
  {
    assert Segments(name) == [name];
  }

  /** A name `stem.ext` without separators, whose stem is nonempty and whose extension has no
      dot, is accepted exactly when its extension lowercases to a supported one. */
  lemma PlainName(stem: string, ext: string)
    requires stem != [] && stem != "." && '/' !in stem && '/' !in ext && '.' !in ext
    ensures IsSupportedAudioFile(stem + "." + ext) <==> Lower(ext) in SupportedExtensions
  {
    NotParent(stem, ext);
    OneComponent(stem + "." + ext);
    ExtensionOfNameParts(stem + "." + ext, stem, ext);
  }

  /** The source's unit test, for every stem without separators or dots in place of `test`:
      `.mp3`, `.flac` and `.FLAC` are accepted, `.txt` and no extension are not. */
  lemma TestMp3(stem: string)
    requires stem != [] && '/' !in stem && '.' !in stem
    ensures IsSupportedAudioFile(stem + ".mp3")
  {
    assert stem + ".mp3" == stem + "." + "mp3";
    assert Lower("mp3") == "mp3";
    PlainName(stem, "mp3");
  }

  lemma TestFlac(stem: string)
    requires stem != [] && '/' !in stem && '.' !in stem
    ensures IsSupportedAudioFile(stem + ".flac")
  {
    assert stem + ".flac" == stem + "." + "flac";
    assert Lower("flac") == "flac";
    PlainName(stem, "flac");
  }

  lemma TestUpperCaseFlac(stem: string)
    requires stem != [] && '/' !in stem && '.' !in stem
    ensures IsSupportedAudioFile(stem + ".FLAC")
  {
    assert stem + ".FLAC" == stem + "." + "FLAC";
    assert Lower("FLAC") == "flac";
    PlainName(stem, "FLAC");
  }

  lemma TestTxt(stem: string)
    requires stem != [] && '/' !in stem && '.' !in stem
    ensures !IsSupportedAudioFile(stem + ".txt")
  {
    assert stem + ".txt" == stem + "." + "txt";
    assert Lower("txt") == "txt";
    PlainName(stem, "txt");
  }

  lemma TestNoExtension(stem: string)
    requires stem != [] && '/' !in stem && '.' !in stem
    ensures !IsSupportedAudioFile(stem)
  {
    OneComponent(stem);
    NoDotNotSupported(stem);
  }

  /** An entry the directory walk yields without error, with what `Path::is_file` reports
      for it (following a symbolic link to its target). */
  datatype Entry = Entry(path: string, isFile: bool)

  /** The paths `scan` keeps from a walk, in walk order. */
  function KeptPaths(entries: seq<Entry>): (r: seq<string>)
    ensures |r| <= |entries|
  {
    if entries == [] then []
    else
      var e := entries[|entries| - 1];
      KeptPaths(entries[..|entries| - 1]) + (if Keeps(e) then [e.path] else [])
  }

  /** Walking two parts of the tree one after the other keeps their files in that order. */
  lemma {:induction false} KeptPathsAppend(a: seq<Entry>, b: seq<Entry>)
    ensures KeptPaths(a + b) == KeptPaths(a) + KeptPaths(b)
    decreases |b|
  {
    if b == [] {
      assert a + b == a;
    } else {
      var b' := b[..|b| - 1];
      assert (a + b)[..|a + b| - 1] == a + b';
      KeptPathsAppend(a, b');
    }
  }

  /** What `scan` keeps: a file whose path is a supported audio file. */
  predicate Keeps(e: Entry)
  {
    e.isFile && IsSupportedAudioFile(e.path)
  }

  /** Every kept path comes from an entry that is a file with a supported extension ... */
  lemma {:induction false} KeptPathHasEntry(entries: seq<Entry>, p: string) returns (k: nat)
    requires p in KeptPaths(entries)
    ensures k < |entries| && entries[k].path == p && Keeps(entries[k])
  {
    var init := entries[..|entries| - 1];
    if p in KeptPaths(init) {
      k := KeptPathHasEntry(init, p);
      assert entries[k] == init[k];
    } else {
      k := |entries| - 1;
    }
  }

  /** ... and every such entry is kept. */
  lemma {:induction false} EntryIsKept(entries: seq<Entry>, k: nat)
    requires k < |entries| && Keeps(entries[k])
    ensures entries[k].path in KeptPaths(entries)
  {
    var init := entries[..|entries| - 1];
    if k < |init| {
      assert entries[k] == init[k];
      EntryIsKept(init, k);
    }
  }

  /** Everything kept is a supported audio file. */
  lemma {:induction false} KeptPathsSupported(entries: seq<Entry>)
    ensures forall k :: 0 <= k < |KeptPaths(entries)| ==> IsSupportedAudioFile(KeptPaths(entries)[k])
  {
    if entries != [] {
      KeptPathsSupported(entries[..|entries| - 1]);
    }
  }

  /** `DirectoryScanner::scan` over the entries the walk yields; it cannot fail. */
  method Scan(entries: seq<Entry>) returns (r: Result<seq<string>, string>)
    ensures r == Ok(KeptPaths(entries))
  {
    var audioFiles: seq<string> := [];
    var i := 0;
    while i < |entries|
      invariant i <= |entries|
      invariant audioFiles == KeptPaths(entries[..i])
    {
      var entry := entries[i];
      assert entries[..i + 1][..i] == entries[..i];
      if !entry.isFile {
        i := i + 1;
        continue;
      }
      var ext := Extension(entry.path);
      if ext.Some? {
        if Lower(ext.value) in SupportedExtensions {
          audioFiles := audioFiles + [entry.path];
        }
      }
      i := i + 1;
    }
    assert entries[..i] == entries;
    r := Ok(audioFiles);
  }
}
