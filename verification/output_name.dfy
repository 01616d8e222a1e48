/**
  The name of the subtitle file: `os.path.splitext(os.path.basename(audio_file))[0]`
  followed by `.srt`, with the POSIX rules of `os.path` (separator '/', extension
  separator '.').
 */
module OutputName {
  import opened Wrappers
  import opened Search

  /** No character of `s` is `c`. */
  predicate Lacks(s: string, c: char) {
    forall k :: 0 <= k < |s| ==> s[k] != c
  }

  lemma LacksAppend(a: string, b: string, c: char)
    ensures Lacks(a + b, c) <==> Lacks(a, c) && Lacks(b, c)
  {
    if Lacks(a, c) && Lacks(b, c) {
      forall k | 0 <= k < |a + b|
        ensures (a + b)[k] != c
      {
        if k >= |a| {
          assert (a + b)[k] == b[k - |a|];
        }
      }
    }
    if Lacks(a + b, c) {
      assert forall k :: 0 <= k < |a| ==> (a + b)[k] == a[k];
      assert forall k :: 0 <= k < |b| ==> (a + b)[|a| + k] == b[k];
    }
  }

  /** Every character of `s` is a dot. */
  predicate AllDots(s: string) {
    forall k :: 0 <= k < |s| ==> s[k] == '.'
  }

  /** Where the last path component begins: just after the last '/', or 0. */
  function ComponentStart(p: string): (i: nat)
    ensures i <= |p|
    ensures forall k :: i <= k < |p| ==> p[k] != '/'
    ensures 0 < i ==> p[i - 1] == '/'
  {
    match LastIndexOf(p, '/')
    case None => 0
    case Some(j) => j + 1
  }

  /** `os.path.basename`: the text after the last '/', the whole path when there is none. */
  function Basename(p: string): (b: string)
    ensures Lacks(b, '/')
    ensures |b| <= |p| && b == p[|p| - |b|..]
    ensures |b| < |p| ==> p[|p| - |b| - 1] == '/'
  {
    p[ComponentStart(p)..]
  }

  /**
    `os.path.splitext`: the extension starts at the last '.' of the last
    component, unless everything before that dot in the component is dots
    (a hidden file such as `.bashrc` has no extension); the root is the rest.
   */
  function SplitExt(p: string): (r: (string, string))
    ensures r.0 + r.1 == p
    ensures r.1 == "" || (r.1[0] == '.' && Lacks(r.1[1..], '.') && Lacks(r.1, '/'))
  {
    var start := ComponentStart(p);
    match LastIndexOf(p, '.')
    case None => (p, "")
    case Some(d) =>
      if start <= d && !AllDots(p[start..d]) then
        assert p == p[..d] + p[d..];
        (p[..d], p[d..])
      else (p, "")
  }

  /** The output file name: the audio file's base name without its extension, plus `.srt`. */
  function SrtFileName(audioFile: string): (name: string)
    ensures |name| >= 4 && name[|name| - 4..] == ".srt"
    ensures Lacks(name, '/')
  {
    var b := Basename(audioFile);
    RootLacksSlash(b);
    SplitExt(b).0 + ".srt"
  }

  /** The root of a name without '/' has no '/' either. */
  lemma RootLacksSlash(b: string)
    requires Lacks(b, '/')
    ensures Lacks(SplitExt(b).0 + ".srt", '/')
  {
    var r := SplitExt(b);
    assert forall k :: 0 <= k < |r.0| ==> r.0[k] == b[k];
  }

  /** Without a '/', the last component is the whole path. */
  lemma NoSlashComponent(p: string)
    requires Lacks(p, '/')
    ensures ComponentStart(p) == 0
  {
    LastIndexOfAbsent(p, '/');
  }

  /** The extension split off is exactly the dotted suffix of a component with a non-dot before the dot. */
  lemma SplitExtAt(p: string, d: nat, k: nat)
    requires Lacks(p, '/')
    requires d < |p| && p[d] == '.'
    requires forall j :: d < j < |p| ==> p[j] != '.'
    requires k < d && p[k] != '.'
    ensures SplitExt(p) == (p[..d], p[d..])
  {
    NoSlashComponent(p);
    LastIndexOfAt(p, '.', d);
    assert p[0..d][k] == p[k];
  }

  /** A component whose dots all lead it has no extension. */
  lemma NoExtensionSplit(p: string)
    requires Lacks(p, '/')
    requires forall d :: 0 <= d < |p| && p[d] == '.' ==> forall j :: 0 <= j < d ==> p[j] == '.'
    ensures SplitExt(p) == (p, "")
  {
    NoSlashComponent(p);
    match LastIndexOf(p, '.')
    case None =>
    case Some(d) =>
      assert AllDots(p[0..d]);
  }

  /** The directory part of the path never reaches the output name. */
  lemma IgnoresDirectory(dir: string, name: string)
    requires Lacks(name, '/')
    ensures SrtFileName(dir + "/" + name) == SrtFileName(name)
  {
    var p := dir + "/" + name;
    assert p[|dir|] == '/';
    assert forall k :: |dir| < k < |p| ==> p[k] == name[k - |dir| - 1];
    LastIndexOfAt(p, '/', |dir|);
    assert p[|dir| + 1..] == name;
    NoSlashComponent(name);
  }

  /** A base name `stem.ext` loses exactly its last extension. */
  lemma ReplacesExtension(stem: string, ext: string)
    requires Lacks(stem, '/') && Lacks(ext, '/') && Lacks(ext, '.')
    requires !AllDots(stem)
    ensures SrtFileName(stem + "." + ext) == stem + ".srt"
  {
    var p := stem + "." + ext;
    StemExtSplit(stem, ext);
    NoSlashComponent(p);
  }

  lemma StemExtSplit(stem: string, ext: string)
    requires Lacks(stem, '/') && Lacks(ext, '/') && Lacks(ext, '.')
    requires !AllDots(stem)
    ensures Lacks(stem + "." + ext, '/')
    ensures SplitExt(stem + "." + ext).0 == stem
  {
    var p := stem + "." + ext;
    var d := |stem|;
    LacksAppend(stem, ".", '/');
    LacksAppend(stem + ".", ext, '/');
    assert p[d + 1..] == ext;
    assert forall j :: d < j < |p| ==> p[j] == p[d + 1..][j - d - 1];
    var k :| 0 <= k < |stem| && stem[k] != '.';
    assert p[k] == stem[k];
    SplitExtAt(p, d, k);
    assert p[..d] == stem;
  }

  /** A name with no dot at all simply gains `.srt`. */
  lemma NoExtension(name: string)
    requires Lacks(name, '/') && Lacks(name, '.')
    ensures SrtFileName(name) == name + ".srt"
  {
    NoSlashComponent(name);
    NoExtensionSplit(name);
  }

  /** A hidden file whose only dots lead its name keeps its whole name. */
  lemma HiddenFile(dots: string, name: string)
    requires AllDots(dots) && Lacks(dots, '/') && Lacks(name, '/') && Lacks(name, '.')
    ensures SrtFileName(dots + name) == dots + name + ".srt"
  {
    var p := dots + name;
    assert forall j :: 0 <= j < |p| ==> p[j] == (if j < |dots| then dots[j] else name[j - |dots|]);
    NoSlashComponent(p);
    NoExtensionSplit(p);
  }

  lemma ExampleRecording()
    ensures SrtFileName("recordings/talk.mp3") == "talk.srt"
  {
    assert "recordings/talk.mp3" == "recordings" + "/" + "talk.mp3";
    IgnoresDirectory("recordings", "talk.mp3");
    ExampleTalk();
  }

  lemma ExampleTalk()
    ensures SrtFileName("talk.mp3") == "talk.srt"
  {
    LastIndexOfAbsent("talk.mp3", '/');
    assert ComponentStart("talk.mp3") == 0;
    assert Basename("talk.mp3") == "talk.mp3"[0..] == "talk.mp3";
    LastIndexOfAt("talk.mp3", '.', 4);
    assert "talk.mp3"[0..4] == "talk" && "talk"[0] == 't';
    assert SplitExt("talk.mp3") == ("talk", ".mp3");
    assert "talk" + ".srt" == "talk.srt";
  }

  /** Only the last of several extensions is removed. */
  lemma ExampleDoubleExtension()
    ensures SrtFileName("archive.tar.gz") == "archive.tar.srt"
  {
    assert "archive.tar"[0] != '.';
    ReplacesExtension("archive.tar", "gz");
    assert "archive.tar" + "." + "gz" == "archive.tar.gz";
    assert "archive.tar" + ".srt" == "archive.tar.srt";
  }

  lemma ExampleHidden()
    ensures SrtFileName(".bashrc") == ".bashrc.srt"
  {
    HiddenFile(".", "bashrc");
    assert "." + "bashrc" == ".bashrc";
    assert "." + "bashrc" + ".srt" == ".bashrc.srt";
  }

  /** A dot in a directory name is not an extension. */
  lemma ExampleDottedDirectory()
    ensures SrtFileName("take.2/clip") == "clip.srt"
  {
    assert "take.2/clip" == "take.2" + "/" + "clip";
    IgnoresDirectory("take.2", "clip");
    ExampleClip();
  }

  lemma ExampleClip()
    ensures SrtFileName("clip") == "clip.srt"
  {
    NoExtension("clip");
    assert "clip" + ".srt" == "clip.srt";
  }
}
