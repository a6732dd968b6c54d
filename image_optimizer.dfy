/** The build step that keeps the site's WebP thumbnails in step with its
    photographs. It walks a photo directory, and for every image whose
    thumbnail is missing or not newer than the photo, asks the image codec
    for a 480-pixel-wide WebP copy. The file system is a value the
    operations take and return; the codec is the set of photos it fails on. */
module ImageOptimizer {
  import opened Wrappers
  import opened PathText

  type Path = string
  type Name = string
  /** A modification time (`mtimeMs`). */
  type Time = int

  const INPUT_DIR: Path := "public/assets/real-photos"
  const OUTPUT_DIR: Path := "public/assets/thumbs"
  const CATEGORY_DIR: Path := "public/assets/categories"

  /** A file, or a directory with its entries in the order `readdirSync`
      returns them. */
  datatype Node = File(mtime: Time) | Dir(mtime: Time, entries: seq<Name>)

  type FileSystem = map<Path, Node>

  /** `path.join(dir, name)`. */
  function Child(dir: Path, name: Name): Path {
    dir + "/" + name
  }

  predicate IsDir(fs: FileSystem, p: Path) {
    p in fs && fs[p].Dir?
  }

  predicate IsFile(fs: FileSystem, p: Path) {
    p in fs && fs[p].File?
  }

  /** `p` is an entry of directory `d`. */
  predicate IsChildOf(p: Path, d: Path) {
    '/' in p && Parent(p) == d
  }

  /** Every name a directory lists is a plain name, and the entry exists. */
  ghost predicate WellFormed(fs: FileSystem) {
    forall d, n :: d in fs && fs[d].Dir? && n in fs[d].entries ==> '/' !in n && Child(d, n) in fs
  }

  // ---------------------------------------------------------------------
  // Names

  function AsciiLower(c: char): (r: char)
    ensures 'A' <= c <= 'Z' ==> 'a' <= r <= 'z'
    ensures !('A' <= c <= 'Z') ==> r == c
  {
    if 'A' <= c <= 'Z' then (c as int + 32) as char else c
  }

  /** `s` ends with the lower-case `suffix` when letters are compared as
      the `i` flag of a regular expression compares them. */
  predicate EndsWithIgnoringCase(s: string, suffix: string) {
    |suffix| <= |s| && forall i :: 0 <= i < |suffix| ==> AsciiLower(s[|s| - |suffix| + i]) == suffix[i]
  }

  /** `/\.(jpe?g|png|webp)$/i.test(name)`. */
  predicate IsImageName(name: Name) {
    || EndsWithIgnoringCase(name, ".jpg") || EndsWithIgnoringCase(name, ".jpeg")
    || EndsWithIgnoringCase(name, ".png") || EndsWithIgnoringCase(name, ".webp")
  }

  /** The directory entries the script treats as images, in listing order:
      each image entry as often as it is listed, and nothing else. */
  function Candidates(entries: seq<Name>): (files: seq<Name>)
    ensures forall n :: multiset(files)[n] == if IsImageName(n) then multiset(entries)[n] else 0
    ensures forall f :: f in files ==> f in entries && IsImageName(f)
  {
    if entries == [] then []
    else
      var init, last := entries[..|entries| - 1], entries[|entries| - 1];
      assert entries == init + [last];
      var files := Candidates(init);
      if IsImageName(last) then files + [last] else files
  }

  /** Filtering keeps the listing order: the images of two consecutive
      parts of a listing are the images of the first, then those of the
      second. */
  lemma {:induction false} CandidatesAppend(a: seq<Name>, b: seq<Name>)
    ensures Candidates(a + b) == Candidates(a) + Candidates(b)
    decreases |b|
  {
    if b != [] {
      var init, last := b[..|b| - 1], b[|b| - 1];
      assert (a + b)[..|a + b| - 1] == a + init;
      CandidatesAppend(a, init);
    } else {
      assert a + b == a;
    }
  }

  /** `path.parse(name).name` for a directory entry name: the name without
      its last `.`-extension, except that a leading dot (`.jpg`) and the
      name `..` do not count as an extension. */
  function ParseName(name: Name): (r: Name)
    ensures |r| <= |name| && r == name[..|r|]
    ensures r != name ==> 0 < |r| < |name| && name[|r|] == '.' && '.' !in name[|r| + 1..]
    ensures r == name <==> |name| <= 1 || '.' !in name[1..] || (|name| == 2 && name[0] == '.' && name[1] == '.')
  {
    var dot := LastIndexOf(name, '.');
    // the name `..` has no extension either
    if dot <= 0 || (|name| == 2 && name[0] == '.' && name[1] == '.') then name
    else
      name[..dot]
  }

  /** `path.parse(file).name + '.webp'`. */
  function OutputName(file: Name): Name {
    ParseName(file) + ".webp"
  }

  lemma OutputNameIsPlain(file: Name)
    requires '/' !in file
    ensures '/' !in OutputName(file)
  {
    var r := ParseName(file);
    assert '/' !in r by {
      assert r == file[..|r|];
    }
    assert '/' !in ".webp";
  }

  // ---------------------------------------------------------------------
  // File-system effects

  /** `fs.mkdirSync(dir, { recursive: true })` for a missing directory:
      the directory is created and listed in its parent. */
  function MakeDir(fs: FileSystem, dir: Path, now: Time): (fs': FileSystem)
    ensures IsDir(fs', dir) && fs'[dir].entries == []
  {
    var parent := Parent(dir);
    var fs1 := fs[dir := Dir(now, [])];
    if '/' in dir && IsDir(fs, parent) && parent != dir then
      fs1[parent := fs[parent].(entries := fs[parent].entries + [FileName(dir)])]
    else fs1
  }

  /** Writing file `name` into directory `dir` at time `now`. */
  function WriteFile(fs: FileSystem, dir: Path, name: Name, now: Time): (fs': FileSystem)
    requires IsDir(fs, dir)
    ensures fs.Keys <= fs'.Keys
    ensures Child(dir, name) in fs' && fs'[Child(dir, name)] == File(now)
    ensures IsDir(fs', dir) && fs'[dir].mtime == fs[dir].mtime
    ensures fs'[dir].entries == if Child(dir, name) in fs then fs[dir].entries else fs[dir].entries + [name]
  {
    assert |Child(dir, name)| > |dir|;
    var p := Child(dir, name);
    if p in fs then fs[p := File(now)]
    else fs[p := File(now)][dir := fs[dir].(entries := fs[dir].entries + [name])]
  }

  /** `sharp(input).resize(...).webp(...).toFile(output)` completes: the
      codec accepts the photo, the photo is a file, and the output can be
      written (its directory is a directory and the output is not one). */
  predicate EncodeSucceeds(fs: FileSystem, broken: set<Path>, input: Path, outputDir: Path, output: Path) {
    input !in broken && IsFile(fs, input) && IsDir(fs, outputDir) && !IsDir(fs, output)
  }

  /** The thumbnail exists and is strictly newer than the photo. */
  predicate UpToDate(fs: FileSystem, input: Path, output: Path) {
    output in fs && input in fs && fs[output].mtime > fs[input].mtime
  }

  /** The state of a pass over a directory: the file system and the
      `processed` counter. */
  datatype Tally = Tally(fs: FileSystem, processed: nat)

  /** One iteration of the loop of `processDirectory`. */
  function StepFile(t: Tally, inputDir: Path, outputDir: Path, broken: set<Path>, now: Time, file: Name): (r: Tally)
    ensures UpToDate(t.fs, Child(inputDir, file), Child(outputDir, OutputName(file))) ==> r == t
    ensures r.processed == t.processed + 1 <==>
              && !UpToDate(t.fs, Child(inputDir, file), Child(outputDir, OutputName(file)))
              && EncodeSucceeds(t.fs, broken, Child(inputDir, file), outputDir, Child(outputDir, OutputName(file)))
    ensures r.processed != t.processed + 1 ==> r == t
    ensures r.processed == t.processed + 1 ==> Child(outputDir, OutputName(file)) in r.fs && r.fs[Child(outputDir, OutputName(file))] == File(now)
    ensures r.processed == t.processed + 1 ==> r.fs == WriteFile(t.fs, outputDir, OutputName(file), now)
  {
    var input := Child(inputDir, file);
    var output := Child(outputDir, OutputName(file));
    if UpToDate(t.fs, input, output) then t
    else if EncodeSucceeds(t.fs, broken, input, outputDir, output) then
      Tally(WriteFile(t.fs, outputDir, OutputName(file), now), t.processed + 1)
    else t
  }

  /** The loop of `processDirectory` over `files`, from a given state. */
  function RunFiles(fs: FileSystem, inputDir: Path, outputDir: Path, broken: set<Path>, now: Time, files: seq<Name>): (t: Tally)
    ensures t.processed <= |files|
    decreases |files|
  {
    if files == [] then Tally(fs, 0)
    else StepFile(RunFiles(fs, inputDir, outputDir, broken, now, files[..|files| - 1]), inputDir, outputDir, broken, now, files[|files| - 1])
  }

  lemma RunFilesSnoc(fs: FileSystem, inputDir: Path, outputDir: Path, broken: set<Path>, now: Time, files: seq<Name>, file: Name)
    ensures RunFiles(fs, inputDir, outputDir, broken, now, files + [file])
         == StepFile(RunFiles(fs, inputDir, outputDir, broken, now, files), inputDir, outputDir, broken, now, file)
  {
    assert (files + [file])[..|files|] == files;
  }

  /** What `processDirectory` returns: `undefined` for a missing input
      directory, the two counts otherwise; `Crashed` when an exception
      escapes it (listing an input "directory" that is a file). */
  datatype Outcome = Missing | Summary(total: nat, processed: nat) | Crashed

  /** The file system after `mkdirSync` of a missing output directory. */
  function Prepared(fs: FileSystem, outputDir: Path, now: Time): FileSystem {
    if outputDir in fs then fs else MakeDir(fs, outputDir, now)
  }

  /** `processDirectory(inputDir, outputDir)`. */
  function ProcessDirectorySpec(fs: FileSystem, inputDir: Path, outputDir: Path, broken: set<Path>, now: Time): (r: (FileSystem, Outcome))
    ensures r.1 == Missing <==> inputDir !in fs
    ensures r.1 == Missing ==> r.0 == fs
    ensures r.1.Summary? ==> r.1.processed <= r.1.total
  {
    if inputDir !in fs then (fs, Missing)
    else
      var fs1 := Prepared(fs, outputDir, now);
      if !IsDir(fs1, inputDir) then (fs1, Crashed)
      else
        var files := Candidates(fs1[inputDir].entries);
        var t := RunFiles(fs1, inputDir, outputDir, broken, now, files);
        (t.fs, Summary(|files|, t.processed))
  }

  // ---------------------------------------------------------------------
  // Well-formedness is kept

  lemma MakeDirWellFormed(fs: FileSystem, dir: Path, now: Time)
    requires WellFormed(fs) && dir !in fs
    ensures WellFormed(MakeDir(fs, dir, now))
  {
    var fs' := MakeDir(fs, dir, now);
    if '/' in dir {
      assert Child(Parent(dir), FileName(dir)) == dir;
    }
  }

  lemma ListedEntryExists(fs: FileSystem, d: Path, n: Name)
    requires WellFormed(fs) && IsDir(fs, d) && n in fs[d].entries
    ensures '/' !in n && Child(d, n) in fs
  {
  }

  lemma WriteFileWellFormed(fs: FileSystem, dir: Path, name: Name, now: Time)
    requires WellFormed(fs) && IsDir(fs, dir) && '/' !in name
    ensures WellFormed(WriteFile(fs, dir, name, now))
  {
  }

  // ---------------------------------------------------------------------
  // What a pass touches

  /** Nothing at `p` differs between the two file systems. */
  ghost predicate Untouched(fs: FileSystem, fs': FileSystem, p: Path) {
    (p in fs <==> p in fs') && (p in fs ==> fs'[p] == fs[p])
  }

  lemma WriteFileFrame(fs: FileSystem, dir: Path, name: Name, now: Time, p: Path)
    requires IsDir(fs, dir) && p != Child(dir, name) && p != dir
    ensures Untouched(fs, WriteFile(fs, dir, name, now), p)
  {
  }

  lemma ChildOfDir(dir: Path, name: Name)
    requires '/' !in name
    ensures IsChildOf(Child(dir, name), dir) && Child(dir, name) != dir
  {
    ChildPath(dir, name);
    assert Child(dir, name)[|dir|] == '/';
  }

  /** A pass writes only thumbnails directly inside the output directory
      and the output directory's listing: every other path, and every
      directory, is left as it was. */
  lemma {:induction false} RunFilesFrame(fs: FileSystem, inputDir: Path, outputDir: Path, broken: set<Path>, now: Time, files: seq<Name>)
    requires forall f :: f in files ==> '/' !in f
    ensures var fs' := RunFiles(fs, inputDir, outputDir, broken, now, files).fs;
      && fs.Keys <= fs'.Keys
      && (forall p :: p != outputDir && (!IsChildOf(p, outputDir) || IsDir(fs, p)) ==> Untouched(fs, fs', p))
      && (IsDir(fs, outputDir) ==> IsDir(fs', outputDir))
      && (!IsDir(fs, outputDir) ==> fs' == fs)
    decreases |files|
  {
    if files != [] {
      var init, file := files[..|files| - 1], files[|files| - 1];
      RunFilesFrame(fs, inputDir, outputDir, broken, now, init);
      var t := RunFiles(fs, inputDir, outputDir, broken, now, init);
      var t' := StepFile(t, inputDir, outputDir, broken, now, file);
      if t' != t {
        var out := Child(outputDir, OutputName(file));
        OutputNameIsPlain(file);
        ChildOfDir(outputDir, OutputName(file));
        assert t'.fs == WriteFile(t.fs, outputDir, OutputName(file), now);
        forall p | p != outputDir && (!IsChildOf(p, outputDir) || IsDir(fs, p))
          ensures Untouched(fs, t'.fs, p)
        {
          assert Untouched(fs, t.fs, p);
          assert p != out;
          WriteFileFrame(t.fs, outputDir, OutputName(file), now, p);
        }
      }
    }
  }

  /** A photo the pass has nothing left to do for: its thumbnail is up to
      date, or encoding it fails. */
  ghost predicate Settled(fs: FileSystem, inputDir: Path, outputDir: Path, broken: set<Path>, file: Name) {
    var input := Child(inputDir, file);
    var output := Child(outputDir, OutputName(file));
    UpToDate(fs, input, output) || !EncodeSucceeds(fs, broken, input, outputDir, output)
  }

  /** Every file directly inside the input directory is older than `now`. */
  ghost predicate InputsOlder(fs: FileSystem, inputDir: Path, now: Time) {
    forall p :: IsFile(fs, p) && IsChildOf(p, inputDir) ==> fs[p].mtime < now
  }

  /** Writing a thumbnail into another directory keeps the photos as old as
      they were. */
  lemma WriteKeepsOlder(fs: FileSystem, inputDir: Path, outputDir: Path, name: Name, now: Time)
    requires IsDir(fs, outputDir) && '/' !in name && inputDir != outputDir && InputsOlder(fs, inputDir, now)
    ensures InputsOlder(WriteFile(fs, outputDir, name, now), inputDir, now)
  {
    var fs' := WriteFile(fs, outputDir, name, now);
    ChildOfDir(outputDir, name);
    forall p | IsFile(fs', p) && IsChildOf(p, inputDir)
      ensures fs'[p].mtime < now
    {
      WriteFileFrame(fs, outputDir, name, now, p);
    }
  }

  /** A photo's path is not inside the output directory. */
  lemma PhotoOutsideOutput(inputDir: Path, outputDir: Path, file: Name)
    requires '/' !in file && inputDir != outputDir
    ensures !IsChildOf(Child(inputDir, file), outputDir)
  {
    ChildOfDir(inputDir, file);
  }

  lemma StepSettles(t: Tally, inputDir: Path, outputDir: Path, broken: set<Path>, now: Time, file: Name)
    requires '/' !in file && inputDir != outputDir && InputsOlder(t.fs, inputDir, now)
    ensures var t' := StepFile(t, inputDir, outputDir, broken, now, file);
      Settled(t'.fs, inputDir, outputDir, broken, file) && InputsOlder(t'.fs, inputDir, now)
  {
    var t' := StepFile(t, inputDir, outputDir, broken, now, file);
    if t' != t {
      var input, name := Child(inputDir, file), OutputName(file);
      OutputNameIsPlain(file);
      ChildOfDir(outputDir, name);
      ChildOfDir(inputDir, file);
      PhotoOutsideOutput(inputDir, outputDir, file);
      WriteFileFrame(t.fs, outputDir, name, now, input);
      WriteKeepsOlder(t.fs, inputDir, outputDir, name, now);
    }
  }

  lemma WriteKeepsSettled(fs: FileSystem, inputDir: Path, outputDir: Path, broken: set<Path>, now: Time, name: Name, g: Name)
    requires '/' !in name && '/' !in g && inputDir != outputDir && InputsOlder(fs, inputDir, now)
    requires IsDir(fs, outputDir) && !IsDir(fs, Child(outputDir, name))
    requires Settled(fs, inputDir, outputDir, broken, g)
    ensures Settled(WriteFile(fs, outputDir, name, now), inputDir, outputDir, broken, g)
  {
    var fs' := WriteFile(fs, outputDir, name, now);
    var output := Child(outputDir, name);
    var inG, outG := Child(inputDir, g), Child(outputDir, OutputName(g));
    OutputNameIsPlain(g);
    ChildOfDir(outputDir, name);
    ChildOfDir(outputDir, OutputName(g));
    ChildOfDir(inputDir, g);
    PhotoOutsideOutput(inputDir, outputDir, g);
    if inG != outputDir {
      WriteFileFrame(fs, outputDir, name, now, inG);
      if IsFile(fs, inG) && inG !in broken && outG != output {
        WriteFileFrame(fs, outputDir, name, now, outG);
      }
    }
  }

  lemma StepKeepsSettled(t: Tally, inputDir: Path, outputDir: Path, broken: set<Path>, now: Time, file: Name, g: Name)
    requires '/' !in file && '/' !in g && inputDir != outputDir && InputsOlder(t.fs, inputDir, now)
    requires Settled(t.fs, inputDir, outputDir, broken, g)
    ensures Settled(StepFile(t, inputDir, outputDir, broken, now, file).fs, inputDir, outputDir, broken, g)
  {
    if StepFile(t, inputDir, outputDir, broken, now, file) != t {
      OutputNameIsPlain(file);
      WriteKeepsSettled(t.fs, inputDir, outputDir, broken, now, OutputName(file), g);
    }
  }

  lemma {:induction false} RunFilesSettles(fs: FileSystem, inputDir: Path, outputDir: Path, broken: set<Path>, now: Time, files: seq<Name>)
    requires forall f :: f in files ==> '/' !in f
    requires inputDir != outputDir && InputsOlder(fs, inputDir, now)
    ensures var fs' := RunFiles(fs, inputDir, outputDir, broken, now, files).fs;
      InputsOlder(fs', inputDir, now) && forall f :: f in files ==> Settled(fs', inputDir, outputDir, broken, f)
    decreases |files|
  {
    if files != [] {
      var init, file := files[..|files| - 1], files[|files| - 1];
      assert files == init + [file];
      RunFilesSettles(fs, inputDir, outputDir, broken, now, init);
      var t := RunFiles(fs, inputDir, outputDir, broken, now, init);
      StepSettles(t, inputDir, outputDir, broken, now, file);
      forall g | g in init
        ensures Settled(StepFile(t, inputDir, outputDir, broken, now, file).fs, inputDir, outputDir, broken, g)
      {
        StepKeepsSettled(t, inputDir, outputDir, broken, now, file, g);
      }
    }
  }

  lemma {:induction false} RunFilesSettledIsIdentity(fs: FileSystem, inputDir: Path, outputDir: Path, broken: set<Path>, now: Time, files: seq<Name>)
    requires forall f :: f in files ==> Settled(fs, inputDir, outputDir, broken, f)
    ensures RunFiles(fs, inputDir, outputDir, broken, now, files) == Tally(fs, 0)
    decreases |files|
  {
    if files != [] {
      var init, file := files[..|files| - 1], files[|files| - 1];
      assert files == init + [file];
      RunFilesSettledIsIdentity(fs, inputDir, outputDir, broken, now, init);
      assert Settled(fs, inputDir, outputDir, broken, file);
      assert StepFile(Tally(fs, 0), inputDir, outputDir, broken, now, file) == Tally(fs, 0);
    }
  }

  lemma CandidatesArePlain(fs: FileSystem, dir: Path)
    requires WellFormed(fs) && IsDir(fs, dir)
    ensures forall f :: f in Candidates(fs[dir].entries) ==> '/' !in f && Child(dir, f) in fs
  {
    forall f | f in Candidates(fs[dir].entries)
      ensures '/' !in f && Child(dir, f) in fs
    {
      ListedEntryExists(fs, dir, f);
    }
  }

  lemma PreparedKeepsFiles(fs: FileSystem, outputDir: Path, now: Time)
    ensures var fs' := Prepared(fs, outputDir, now);
      && fs.Keys <= fs'.Keys && IsDir(fs', outputDir) == (outputDir !in fs || IsDir(fs, outputDir))
      && forall p :: (IsFile(fs, p) <==> IsFile(fs', p)) && (IsFile(fs, p) ==> fs'[p] == fs[p])
  {
  }

  /** A pass over `inputDir` has nothing left to do: once the input exists
      the output directory does too, and every image listed in the input
      directory is settled. */
  ghost predicate PassDone(fs: FileSystem, inputDir: Path, outputDir: Path, broken: set<Path>) {
    inputDir in fs ==>
      && outputDir in fs
      && (IsDir(fs, inputDir) ==> forall f :: f in Candidates(fs[inputDir].entries) ==> Settled(fs, inputDir, outputDir, broken, f))
  }

  /** A pass whose photos are older than the clock leaves nothing to do,
      and its summary counts the images still listed afterwards. */
  lemma PassEstablishesDone(fs: FileSystem, inputDir: Path, outputDir: Path, broken: set<Path>, now: Time)
    requires WellFormed(fs) && inputDir != outputDir && InputsOlder(fs, inputDir, now)
    ensures var (fs', outcome) := ProcessDirectorySpec(fs, inputDir, outputDir, broken, now);
      && PassDone(fs', inputDir, outputDir, broken)
      && (outcome.Summary? ==> IsDir(fs', inputDir) && outcome.total == |Candidates(fs'[inputDir].entries)|)
      && (outcome.Crashed? ==> inputDir in fs' && !IsDir(fs', inputDir))
  {
    if inputDir in fs {
      var fs0 := Prepared(fs, outputDir, now);
      PreparedKeepsFiles(fs, outputDir, now);
      if outputDir !in fs {
        MakeDirWellFormed(fs, outputDir, now);
      }
      if IsDir(fs0, inputDir) {
        var files := Candidates(fs0[inputDir].entries);
        CandidatesArePlain(fs0, inputDir);
        RunFilesFrame(fs0, inputDir, outputDir, broken, now, files);
        RunFilesSettles(fs0, inputDir, outputDir, broken, now, files);
        var fs1 := RunFiles(fs0, inputDir, outputDir, broken, now, files).fs;
        assert Untouched(fs0, fs1, inputDir);
      }
    }
  }

  /** A pass with nothing to do writes nothing and counts nothing, at any
      time. */
  lemma PassDoneIsIdentity(fs: FileSystem, inputDir: Path, outputDir: Path, broken: set<Path>, later: Time)
    requires PassDone(fs, inputDir, outputDir, broken)
    ensures ProcessDirectorySpec(fs, inputDir, outputDir, broken, later)
         == (fs, if inputDir !in fs then Missing
                 else if IsDir(fs, inputDir) then Summary(|Candidates(fs[inputDir].entries)|, 0)
                 else Crashed)
  {
    if IsDir(fs, inputDir) {
      assert Prepared(fs, outputDir, later) == fs;
      RunFilesSettledIsIdentity(fs, inputDir, outputDir, broken, later, Candidates(fs[inputDir].entries));
    }
  }

  /** Running the script twice in a row does nothing the second time:
      every thumbnail it could make is newer than its photo, so the second
      pass skips or fails on every image and writes nothing. */
  lemma ProcessDirectoryIdempotent(fs: FileSystem, inputDir: Path, outputDir: Path, broken: set<Path>, now: Time, later: Time)
    requires WellFormed(fs) && inputDir != outputDir && InputsOlder(fs, inputDir, now)
    ensures var (fs1, first) := ProcessDirectorySpec(fs, inputDir, outputDir, broken, now);
      first.Summary? ==> ProcessDirectorySpec(fs1, inputDir, outputDir, broken, later) == (fs1, Summary(first.total, 0))
  {
    PassEstablishesDone(fs, inputDir, outputDir, broken, now);
    PassDoneIsIdentity(ProcessDirectorySpec(fs, inputDir, outputDir, broken, now).0, inputDir, outputDir, broken, later);
  }

  /** Only the output directory and what is directly inside it can change:
      every file elsewhere keeps its contents and its time, and no file
      appears elsewhere. */
  lemma ProcessDirectoryKeepsSources(fs: FileSystem, inputDir: Path, outputDir: Path, broken: set<Path>, now: Time)
    requires WellFormed(fs)
    ensures var fs' := ProcessDirectorySpec(fs, inputDir, outputDir, broken, now).0;
      forall p :: !IsChildOf(p, outputDir) ==> (IsFile(fs, p) <==> IsFile(fs', p)) && (IsFile(fs, p) ==> fs'[p] == fs[p])
  {
    if inputDir in fs {
      var fs0 := Prepared(fs, outputDir, now);
      PreparedKeepsFiles(fs, outputDir, now);
      if outputDir !in fs {
        MakeDirWellFormed(fs, outputDir, now);
      }
      if IsDir(fs0, inputDir) {
        var files := Candidates(fs0[inputDir].entries);
        CandidatesArePlain(fs0, inputDir);
        RunFilesFrame(fs0, inputDir, outputDir, broken, now, files);
        var fs' := RunFiles(fs0, inputDir, outputDir, broken, now, files).fs;
        forall p | !IsChildOf(p, outputDir)
          ensures (IsFile(fs0, p) <==> IsFile(fs', p)) && (IsFile(fs0, p) ==> fs'[p] == fs0[p])
        {
          if p != outputDir {
            assert Untouched(fs0, fs', p);
          }
        }
      }
    }
  }

  /** A pass over an existing input directory leaves the output directory
      in place, creating it when it is missing. */
  lemma ProcessDirectoryCreatesOutput(fs: FileSystem, inputDir: Path, outputDir: Path, broken: set<Path>, now: Time)
    requires WellFormed(fs) && inputDir in fs
    ensures var fs' := ProcessDirectorySpec(fs, inputDir, outputDir, broken, now).0;
      && fs.Keys <= fs'.Keys
      && (outputDir !in fs ==> IsDir(fs', outputDir))
  {
    var fs0 := Prepared(fs, outputDir, now);
    if outputDir !in fs {
      MakeDirWellFormed(fs, outputDir, now);
    }
    if IsDir(fs0, inputDir) {
      var files := Candidates(fs0[inputDir].entries);
      CandidatesArePlain(fs0, inputDir);
      RunFilesFrame(fs0, inputDir, outputDir, broken, now, files);
    }
  }

  lemma {:induction false} RunFilesWellFormed(fs: FileSystem, inputDir: Path, outputDir: Path, broken: set<Path>, now: Time, files: seq<Name>)
    requires WellFormed(fs) && forall f :: f in files ==> '/' !in f
    ensures WellFormed(RunFiles(fs, inputDir, outputDir, broken, now, files).fs)
    decreases |files|
  {
    if files != [] {
      var init, file := files[..|files| - 1], files[|files| - 1];
      RunFilesWellFormed(fs, inputDir, outputDir, broken, now, init);
      var t := RunFiles(fs, inputDir, outputDir, broken, now, init);
      if StepFile(t, inputDir, outputDir, broken, now, file) != t {
        OutputNameIsPlain(file);
        WriteFileWellFormed(t.fs, outputDir, OutputName(file), now);
      }
    }
  }

  /** A pass keeps the file system well formed; it adds paths only when the
      input directory exists, and then only the output directory and
      entries directly inside it. */
  lemma ProcessDirectoryNewPaths(fs: FileSystem, inputDir: Path, outputDir: Path, broken: set<Path>, now: Time)
    requires WellFormed(fs)
    ensures var fs' := ProcessDirectorySpec(fs, inputDir, outputDir, broken, now).0;
      && WellFormed(fs') && fs.Keys <= fs'.Keys
      && forall p :: p in fs' && p !in fs ==> inputDir in fs && (p == outputDir || IsChildOf(p, outputDir))
  {
    if inputDir in fs {
      var fs0 := Prepared(fs, outputDir, now);
      if outputDir !in fs {
        MakeDirWellFormed(fs, outputDir, now);
      }
      if IsDir(fs0, inputDir) {
        var files := Candidates(fs0[inputDir].entries);
        CandidatesArePlain(fs0, inputDir);
        RunFilesFrame(fs0, inputDir, outputDir, broken, now, files);
        RunFilesWellFormed(fs0, inputDir, outputDir, broken, now, files);
      }
    }
  }

  /** The body of the loop of `processDirectory` for one listed image:
      skipped when its thumbnail is newer, otherwise encoded, and counted
      when that succeeds. */
  method ProcessFile(fs: FileSystem, inputDir: Path, outputDir: Path, broken: set<Path>, now: Time, file: Name, processed: nat)
    returns (fs': FileSystem, processed': nat)
    ensures Tally(fs', processed') == StepFile(Tally(fs, processed), inputDir, outputDir, broken, now, file)
  {
    var inputPath := Child(inputDir, file);
    var outputName := OutputName(file);
    var outputPath := Child(outputDir, outputName);
    if outputPath in fs && inputPath in fs && fs[outputPath].mtime > fs[inputPath].mtime {
      // the thumbnail is newer than the photo: skipped
      return fs, processed;
    }
    if EncodeSucceeds(fs, broken, inputPath, outputDir, outputPath) {
      return WriteFile(fs, outputDir, outputName, now), processed + 1;
    }
    return fs, processed;
  }

  /** The loop of `processDirectory` over the listed images. */
  method ProcessFiles(fs: FileSystem, inputDir: Path, outputDir: Path, broken: set<Path>, now: Time, files: seq<Name>)
    returns (fs': FileSystem, processed: nat)
    ensures Tally(fs', processed) == RunFiles(fs, inputDir, outputDir, broken, now, files)
    ensures processed <= |files|
  {
    fs', processed := fs, 0;
    var i := 0;
    while i < |files|
      invariant i <= |files|
      invariant Tally(fs', processed) == RunFiles(fs, inputDir, outputDir, broken, now, files[..i])
    {
      var file := files[i];
      assert files[..i + 1] == files[..i] + [file];
      RunFilesSnoc(fs, inputDir, outputDir, broken, now, files[..i], file);
      fs', processed := ProcessFile(fs', inputDir, outputDir, broken, now, file, processed);
      i := i + 1;
    }
    assert files[..i] == files;
  }

  /** `processDirectory(inputDir, outputDir)`. */
  method ProcessDirectory(fs: FileSystem, inputDir: Path, outputDir: Path, broken: set<Path>, now: Time)
    returns (fs': FileSystem, outcome: Outcome)
    requires WellFormed(fs)
    ensures (fs', outcome) == ProcessDirectorySpec(fs, inputDir, outputDir, broken, now)
    ensures WellFormed(fs')
    ensures outcome.Summary? ==> outcome.processed <= outcome.total
  {
    if inputDir !in fs {
      return fs, Missing;
    }
    fs' := fs;
    if outputDir !in fs' {
      MakeDirWellFormed(fs', outputDir, now);
      fs' := MakeDir(fs', outputDir, now);
    }
    if !IsDir(fs', inputDir) {
      return fs', Crashed;
    }
    var files := Candidates(fs'[inputDir].entries);
    var processed;
    fs', processed := ProcessFiles(fs', inputDir, outputDir, broken, now, files);
    outcome := Summary(|files|, processed);
    ProcessDirectoryNewPaths(fs, inputDir, outputDir, broken, now);
  }

  // ---------------------------------------------------------------------
  // The whole run

  /** The entries of a listing that are directories, in listing order
      (`readdirSync(root, { withFileTypes: true })` kept by `isDirectory()`):
      each directory as often as it is listed, and nothing else. */
  function Subdirectories(fs: FileSystem, root: Path, entries: seq<Name>): (dirs: seq<Name>)
    ensures forall n :: multiset(dirs)[n] == if IsDir(fs, Child(root, n)) then multiset(entries)[n] else 0
    ensures forall n :: n in dirs ==> n in entries && IsDir(fs, Child(root, n))
  {
    if entries == [] then []
    else
      var init, last := entries[..|entries| - 1], entries[|entries| - 1];
      assert entries == init + [last];
      var dirs := Subdirectories(fs, root, init);
      if IsDir(fs, Child(root, last)) then dirs + [last] else dirs
  }

  /** The category list keeps the listing order: the directories of two
      consecutive parts of a listing are those of the first, then those of
      the second. */
  lemma {:induction false} SubdirectoriesAppend(fs: FileSystem, root: Path, a: seq<Name>, b: seq<Name>)
    ensures Subdirectories(fs, root, a + b) == Subdirectories(fs, root, a) + Subdirectories(fs, root, b)
    decreases |b|
  {
    if b != [] {
      var init, last := b[..|b| - 1], b[|b| - 1];
      assert (a + b)[..|a + b| - 1] == a + init;
      SubdirectoriesAppend(fs, root, a, init);
    } else {
      assert a + b == a;
    }
  }

  /** Where the thumbnails of category `cat` go. */
  function ThumbsOf(root: Path, cat: Name): Path {
    Child(Child(root, cat), "thumbs")
  }

  /** The category loop of `main` over `cats`: each category directory is
      processed into its own `thumbs` directory; the flag is false once a
      pass has thrown, which ends the loop. */
  function RunCategories(fs: FileSystem, root: Path, cats: seq<Name>, broken: set<Path>, now: Time): (r: (FileSystem, bool))
    decreases |cats|
  {
    if cats == [] then (fs, true)
    else
      var (fs1, ok) := RunCategories(fs, root, cats[..|cats| - 1], broken, now);
      if !ok then (fs1, false)
      else
        var cat := cats[|cats| - 1];
        var (fs2, outcome) := ProcessDirectorySpec(fs1, Child(root, cat), ThumbsOf(root, cat), broken, now);
        (fs2, !outcome.Crashed?)
  }

  /** The line `main` prints about the photo directory. */
  datatype Report = Report(generated: nat, total: nat)

  /** How `main` ends: it completes, printing the report when the photo
      directory exists; or an exception escapes it. */
  datatype RunResult = Completed(report: Option<Report>) | Failed

  /** `main()`: the photo directory, then every category directory. */
  function RunSpec(fs: FileSystem, broken: set<Path>, now: Time): (r: (FileSystem, RunResult))
    ensures r.1.Completed? ==> (r.1.report.Some? <==> INPUT_DIR in fs)
    ensures r.1.Completed? && r.1.report.Some? ==> r.1.report.value.generated <= r.1.report.value.total
  {
    var (fs1, top) := ProcessDirectorySpec(fs, INPUT_DIR, OUTPUT_DIR, broken, now);
    if top.Crashed? then (fs1, Failed)
    else
      var report := if top.Summary? then Some(Report(top.processed, top.total)) else None;
      if CATEGORY_DIR !in fs1 then (fs1, Completed(report))
      else if !IsDir(fs1, CATEGORY_DIR) then (fs1, Failed)
      else
        var (fs2, ok) := RunCategories(fs1, CATEGORY_DIR, Subdirectories(fs1, CATEGORY_DIR, fs1[CATEGORY_DIR].entries), broken, now);
        (fs2, if ok then Completed(report) else Failed)
  }

  lemma RunCategoriesSnoc(fs: FileSystem, root: Path, cats: seq<Name>, cat: Name, broken: set<Path>, now: Time)
    ensures var (fs1, ok) := RunCategories(fs, root, cats, broken, now);
      RunCategories(fs, root, cats + [cat], broken, now)
        == if !ok then (fs1, false)
           else
             var (fs2, outcome) := ProcessDirectorySpec(fs1, Child(root, cat), ThumbsOf(root, cat), broken, now);
             (fs2, !outcome.Crashed?)
  {
    assert (cats + [cat])[..|cats|] == cats;
  }

  /** Once a category pass has thrown, the later categories are not run. */
  lemma {:induction false} RunCategoriesStops(fs: FileSystem, root: Path, cats: seq<Name>, k: nat, broken: set<Path>, now: Time)
    requires k <= |cats| && !RunCategories(fs, root, cats[..k], broken, now).1
    ensures RunCategories(fs, root, cats, broken, now) == RunCategories(fs, root, cats[..k], broken, now)
    decreases |cats|
  {
    if k < |cats| {
      var init := cats[..|cats| - 1];
      assert init[..k] == cats[..k];
      RunCategoriesStops(fs, root, init, k, broken, now);
    } else {
      assert cats[..k] == cats;
    }
  }

  lemma CategoryStep(fs: FileSystem, root: Path, cat: Name, broken: set<Path>, now: Time)
    requires WellFormed(fs)
    ensures var fs' := ProcessDirectorySpec(fs, Child(root, cat), ThumbsOf(root, cat), broken, now).0;
      && WellFormed(fs') && fs.Keys <= fs'.Keys
      && (forall p :: p in fs' && p !in fs ==> p == ThumbsOf(root, cat) || IsChildOf(p, ThumbsOf(root, cat)))
      && (Child(root, cat) in fs ==> ThumbsOf(root, cat) in fs')
  {
    ProcessDirectoryNewPaths(fs, Child(root, cat), ThumbsOf(root, cat), broken, now);
    if Child(root, cat) in fs {
      ProcessDirectoryCreatesOutput(fs, Child(root, cat), ThumbsOf(root, cat), broken, now);
    }
  }

  lemma PreparedFrame(fs: FileSystem, outputDir: Path, now: Time, p: Path)
    requires p != outputDir && p != Parent(outputDir)
    ensures Untouched(fs, Prepared(fs, outputDir, now), p)
  {
  }

  /** A pass leaves every directory other than the output directory and
      the output directory's parent as it was. */
  lemma ProcessDirectoryKeepsDirs(fs: FileSystem, inputDir: Path, outputDir: Path, broken: set<Path>, now: Time, d: Path)
    requires WellFormed(fs) && IsDir(fs, d) && d != outputDir && d != Parent(outputDir)
    ensures Untouched(fs, ProcessDirectorySpec(fs, inputDir, outputDir, broken, now).0, d)
  {
    if inputDir in fs {
      var fs0 := Prepared(fs, outputDir, now);
      PreparedFrame(fs, outputDir, now, d);
      if outputDir !in fs {
        MakeDirWellFormed(fs, outputDir, now);
      }
      if IsDir(fs0, inputDir) {
        var files := Candidates(fs0[inputDir].entries);
        CandidatesArePlain(fs0, inputDir);
        RunFilesFrame(fs0, inputDir, outputDir, broken, now, files);
        var fs' := RunFiles(fs0, inputDir, outputDir, broken, now, files).fs;
        assert IsDir(fs0, d);
        assert Untouched(fs0, fs', d);
        assert ProcessDirectorySpec(fs, inputDir, outputDir, broken, now).0 == fs';
      } else {
        assert ProcessDirectorySpec(fs, inputDir, outputDir, broken, now).0 == fs0;
      }
    }
  }

  /** A pass changes nothing but its output directory, that directory's
      parent and the entries directly inside the output directory. */
  lemma PassFrame(fs: FileSystem, inputDir: Path, outputDir: Path, broken: set<Path>, now: Time, q: Path)
    requires WellFormed(fs) && q != outputDir && q != Parent(outputDir) && !IsChildOf(q, outputDir)
    ensures Untouched(fs, ProcessDirectorySpec(fs, inputDir, outputDir, broken, now).0, q)
  {
    if inputDir in fs {
      var fs0 := Prepared(fs, outputDir, now);
      PreparedFrame(fs, outputDir, now, q);
      if outputDir !in fs {
        MakeDirWellFormed(fs, outputDir, now);
      }
      if IsDir(fs0, inputDir) {
        var files := Candidates(fs0[inputDir].entries);
        CandidatesArePlain(fs0, inputDir);
        RunFilesFrame(fs0, inputDir, outputDir, broken, now, files);
      }
    }
  }

  /** A pass leaves every directory a directory. */
  lemma PassKeepsDir(fs: FileSystem, inputDir: Path, outputDir: Path, broken: set<Path>, now: Time, d: Path)
    requires WellFormed(fs) && IsDir(fs, d)
    ensures IsDir(ProcessDirectorySpec(fs, inputDir, outputDir, broken, now).0, d)
  {
    if inputDir in fs {
      var fs0 := Prepared(fs, outputDir, now);
      assert IsDir(fs0, d);
      if outputDir !in fs {
        MakeDirWellFormed(fs, outputDir, now);
      }
      if IsDir(fs0, inputDir) {
        var files := Candidates(fs0[inputDir].entries);
        CandidatesArePlain(fs0, inputDir);
        RunFilesFrame(fs0, inputDir, outputDir, broken, now, files);
      }
    }
  }

  /** `p` is out of reach of a pass into `outputDir`: neither the output
      directory, its parent or grandparent, nor an entry inside it. Then
      neither `p` nor any entry of `p` changes. */
  ghost predicate Apart(p: Path, outputDir: Path) {
    p != outputDir && p != Parent(outputDir) && p != Parent(Parent(outputDir)) && !IsChildOf(p, outputDir)
  }

  lemma ChildApart(dir: Path, outputDir: Path, name: Name)
    requires '/' !in name && Apart(dir, outputDir)
    ensures var p := Child(dir, name);
      p != outputDir && p != Parent(outputDir) && !IsChildOf(p, outputDir)
  {
    ChildPath(dir, name);
  }

  /** A settled photo stays settled while its photo, its thumbnail and the
      output directory stay as they are. */
  lemma SettledFrame(fs: FileSystem, fs': FileSystem, inputDir: Path, outputDir: Path, broken: set<Path>, f: Name)
    requires Settled(fs, inputDir, outputDir, broken, f)
    requires Untouched(fs, fs', Child(inputDir, f)) && Untouched(fs, fs', Child(outputDir, OutputName(f)))
    requires Untouched(fs, fs', outputDir)
    ensures Settled(fs', inputDir, outputDir, broken, f)
  {
  }

  /** A change confined to `outputDir`, its parent and its entries keeps a
      pass done whose directories are apart from `outputDir`. */
  lemma DoneKeptByFrame(fs: FileSystem, fs': FileSystem, outputDir: Path, broken: set<Path>, doneInput: Path, doneOutput: Path)
    requires WellFormed(fs) && PassDone(fs, doneInput, doneOutput, broken) && fs.Keys <= fs'.Keys
    requires Apart(doneInput, outputDir) && Apart(doneOutput, outputDir)
    requires forall q :: q != outputDir && q != Parent(outputDir) && !IsChildOf(q, outputDir) ==> Untouched(fs, fs', q)
    ensures PassDone(fs', doneInput, doneOutput, broken)
  {
    assert Untouched(fs, fs', doneInput) && Untouched(fs, fs', doneOutput);
    if IsDir(fs, doneInput) {
      CandidatesArePlain(fs, doneInput);
      forall f | f in Candidates(fs'[doneInput].entries)
        ensures Settled(fs', doneInput, doneOutput, broken, f)
      {
        OutputNameIsPlain(f);
        ChildApart(doneInput, outputDir, f);
        ChildApart(doneOutput, outputDir, OutputName(f));
        SettledFrame(fs, fs', doneInput, doneOutput, broken, f);
      }
    }
  }

  /** A pass into `outputDir` keeps another pass done when that pass's
      input and output directories are apart from `outputDir`. */
  lemma PassKeepsOtherPass(fs: FileSystem, inputDir: Path, outputDir: Path, broken: set<Path>, now: Time, doneInput: Path, doneOutput: Path)
    requires WellFormed(fs) && PassDone(fs, doneInput, doneOutput, broken)
    requires Apart(doneInput, outputDir) && Apart(doneOutput, outputDir)
    ensures PassDone(ProcessDirectorySpec(fs, inputDir, outputDir, broken, now).0, doneInput, doneOutput, broken)
  {
    var fs' := ProcessDirectorySpec(fs, inputDir, outputDir, broken, now).0;
    ProcessDirectoryNewPaths(fs, inputDir, outputDir, broken, now);
    forall q | q != outputDir && q != Parent(outputDir) && !IsChildOf(q, outputDir)
      ensures Untouched(fs, fs', q)
    {
      PassFrame(fs, inputDir, outputDir, broken, now, q);
    }
    DoneKeptByFrame(fs, fs', outputDir, broken, doneInput, doneOutput);
  }

  /** No path is an entry of a longer path. */
  lemma ShorterNotChild(p: Path, dir: Path)
    requires |p| < |dir|
    ensures !IsChildOf(p, dir)
  {
  }

  /** A category's directory and `thumbs` directory, by length and by the
      letter after `public/assets/`. */
  lemma CategoryLayout(c: Name)
    ensures var dir := Child(CATEGORY_DIR, c);
      |dir| == 25 + |c| && dir[14] == 'c' && |ThumbsOf(CATEGORY_DIR, c)| == 32 + |c|
  {
  }

  /** The facts about the three directory constants the proofs use. */
  lemma DirectoryLiterals()
    ensures |INPUT_DIR| == 25 && INPUT_DIR[14] == 'r' && |OUTPUT_DIR| == 20
    ensures |CATEGORY_DIR| == 24 && CATEGORY_DIR[14] == 'c' && '/' !in "thumbs"
  {
  }

  /** The photo directory's pass is out of reach of every category's. */
  lemma TopApartFromCategory(c: Name)
    requires '/' !in c
    ensures Apart(INPUT_DIR, ThumbsOf(CATEGORY_DIR, c)) && Apart(OUTPUT_DIR, ThumbsOf(CATEGORY_DIR, c))
  {
    var dir, thumbs := Child(CATEGORY_DIR, c), ThumbsOf(CATEGORY_DIR, c);
    DirectoryLiterals();
    ChildPath(CATEGORY_DIR, c);
    ChildPath(dir, "thumbs");
    CategoryLayout(c);
    ShorterNotChild(INPUT_DIR, thumbs);
    ShorterNotChild(OUTPUT_DIR, thumbs);
  }

  /** Two different categories' passes are out of reach of each other. */
  lemma CategoriesApart(c: Name, c': Name)
    requires '/' !in c && '/' !in c' && c != c'
    ensures Apart(Child(CATEGORY_DIR, c), ThumbsOf(CATEGORY_DIR, c'))
    ensures Apart(ThumbsOf(CATEGORY_DIR, c), ThumbsOf(CATEGORY_DIR, c'))
  {
    var dir, dir' := Child(CATEGORY_DIR, c), Child(CATEGORY_DIR, c');
    DirectoryLiterals();
    CategoryLayout(c);
    ChildPath(CATEGORY_DIR, c);
    ChildPath(CATEGORY_DIR, c');
    ChildPath(dir', "thumbs");
    CategoryPathsDistinct(c, c');
    CategoryPathsDistinct(c', c);
  }

  /** The category loop keeps the file system well formed and adds only
      the categories' `thumbs` directories and what is directly inside
      them; when it runs to the end, every category whose directory exists
      has its `thumbs` directory. */
  lemma {:induction false} RunCategoriesFootprint(fs: FileSystem, root: Path, cats: seq<Name>, broken: set<Path>, now: Time)
    requires WellFormed(fs)
    ensures var (fs', ok) := RunCategories(fs, root, cats, broken, now);
      && WellFormed(fs') && fs.Keys <= fs'.Keys
      && (forall p :: p in fs' && p !in fs ==>
            exists c :: c in cats && (p == ThumbsOf(root, c) || IsChildOf(p, ThumbsOf(root, c))))
      && (ok ==> forall c :: c in cats && Child(root, c) in fs ==> ThumbsOf(root, c) in fs')
    decreases |cats|
  {
    if cats != [] {
      var init, cat := cats[..|cats| - 1], cats[|cats| - 1];
      assert cats == init + [cat];
      RunCategoriesFootprint(fs, root, init, broken, now);
      var (fs1, ok1) := RunCategories(fs, root, init, broken, now);
      if ok1 {
        CategoryStep(fs1, root, cat, broken, now);
        var fs2 := ProcessDirectorySpec(fs1, Child(root, cat), ThumbsOf(root, cat), broken, now).0;
        forall p | p in fs2 && p !in fs
          ensures exists c :: c in cats && (p == ThumbsOf(root, c) || IsChildOf(p, ThumbsOf(root, c)))
        {
          if p in fs1 {
            var c :| c in init && (p == ThumbsOf(root, c) || IsChildOf(p, ThumbsOf(root, c)));
            assert c in cats;
          } else {
            assert cat in cats;
          }
        }
      }
    }
  }

  /** The category loop of `main()`. */
  method ProcessCategories(fs: FileSystem, root: Path, cats: seq<Name>, broken: set<Path>, now: Time) returns (fs': FileSystem, ok: bool)
    requires WellFormed(fs)
    ensures (fs', ok) == RunCategories(fs, root, cats, broken, now)
    ensures WellFormed(fs')
  {
    fs' := fs;
    var i := 0;
    while i < |cats|
      invariant i <= |cats|
      invariant (fs', true) == RunCategories(fs, root, cats[..i], broken, now)
      invariant WellFormed(fs')
    {
      var cat := cats[i];
      assert cats[..i + 1] == cats[..i] + [cat];
      RunCategoriesSnoc(fs, root, cats[..i], cat, broken, now);
      var outcome;
      fs', outcome := ProcessDirectory(fs', Child(root, cat), ThumbsOf(root, cat), broken, now);
      if outcome.Crashed? {
        RunCategoriesStops(fs, root, cats, i + 1, broken, now);
        return fs', false;
      }
      i := i + 1;
    }
    assert cats[..i] == cats;
    ok := true;
  }

  /** `main()`. */
  method Run(fs: FileSystem, broken: set<Path>, now: Time) returns (fs': FileSystem, result: RunResult)
    requires WellFormed(fs)
    ensures (fs', result) == RunSpec(fs, broken, now)
    ensures WellFormed(fs')
  {
    var top;
    fs', top := ProcessDirectory(fs, INPUT_DIR, OUTPUT_DIR, broken, now);
    if top.Crashed? {
      return fs', Failed;
    }
    var report := if top.Summary? then Some(Report(top.processed, top.total)) else None;
    if CATEGORY_DIR !in fs' {
      return fs', Completed(report);
    }
    if !IsDir(fs', CATEGORY_DIR) {
      return fs', Failed;
    }
    var categories := Subdirectories(fs', CATEGORY_DIR, fs'[CATEGORY_DIR].entries);
    var ok;
    fs', ok := ProcessCategories(fs', CATEGORY_DIR, categories, broken, now);
    result := if ok then Completed(report) else Failed;
  }

  /** What a run adds to the file system: the thumbnail directory and the
      thumbnails in it, and inside existing category directories a
      `thumbs` directory and the thumbnails in it. */
  lemma RunAddsOnlyThumbnails(fs: FileSystem, broken: set<Path>, now: Time)
    requires WellFormed(fs)
    ensures var fs' := RunSpec(fs, broken, now).0;
      WellFormed(fs') && fs.Keys <= fs'.Keys && OnlyThumbnailsAdded(fs, fs')
  {
    ProcessDirectoryNewPaths(fs, INPUT_DIR, OUTPUT_DIR, broken, now);
    var (fs1, top) := ProcessDirectorySpec(fs, INPUT_DIR, OUTPUT_DIR, broken, now);
    if !top.Crashed? && IsDir(fs1, CATEGORY_DIR) {
      var cats := Subdirectories(fs1, CATEGORY_DIR, fs1[CATEGORY_DIR].entries);
      RunCategoriesFootprint(fs1, CATEGORY_DIR, cats, broken, now);
      var fs2 := RunCategories(fs1, CATEGORY_DIR, cats, broken, now).0;
      forall p | p in fs2 && p !in fs1
        ensures exists c :: '/' !in c && Child(CATEGORY_DIR, c) in fs2
                            && (p == ThumbsOf(CATEGORY_DIR, c) || IsChildOf(p, ThumbsOf(CATEGORY_DIR, c)))
      {
        var c :| c in cats && (p == ThumbsOf(CATEGORY_DIR, c) || IsChildOf(p, ThumbsOf(CATEGORY_DIR, c)));
        ListedEntryExists(fs1, CATEGORY_DIR, c);
      }
    }
  }

  /** A run that completes leaves a `thumbs` directory in every category
      directory that existed when it started. */
  lemma RunCreatesCategoryThumbs(fs: FileSystem, broken: set<Path>, now: Time, c: Name)
    requires WellFormed(fs) && IsDir(fs, CATEGORY_DIR) && c in fs[CATEGORY_DIR].entries
    requires IsDir(fs, Child(CATEGORY_DIR, c))
    ensures var (fs', result) := RunSpec(fs, broken, now);
      result.Completed? ==> ThumbsOf(CATEGORY_DIR, c) in fs'
  {
    var dir := Child(CATEGORY_DIR, c);
    ProcessDirectoryNewPaths(fs, INPUT_DIR, OUTPUT_DIR, broken, now);
    assert |Parent(OUTPUT_DIR)| <= |OUTPUT_DIR| < |CATEGORY_DIR| < |dir|;
    ProcessDirectoryKeepsDirs(fs, INPUT_DIR, OUTPUT_DIR, broken, now, CATEGORY_DIR);
    ProcessDirectoryKeepsDirs(fs, INPUT_DIR, OUTPUT_DIR, broken, now, dir);
    var (fs1, top) := ProcessDirectorySpec(fs, INPUT_DIR, OUTPUT_DIR, broken, now);
    if !top.Crashed? {
      var entries := fs1[CATEGORY_DIR].entries;
      var cats := Subdirectories(fs1, CATEGORY_DIR, entries);
      assert multiset(entries)[c] > 0;
      assert c in cats;
      RunCategoriesFootprint(fs1, CATEGORY_DIR, cats, broken, now);
    }
  }

  /** How the paths a run may add relate to one another. */
  lemma CategoryPathsDistinct(cat: Name, c: Name)
    requires '/' !in cat && '/' !in c
    ensures Child(CATEGORY_DIR, cat) != OUTPUT_DIR && !IsChildOf(Child(CATEGORY_DIR, cat), OUTPUT_DIR)
    ensures ThumbsOf(CATEGORY_DIR, cat) != OUTPUT_DIR && !IsChildOf(ThumbsOf(CATEGORY_DIR, cat), OUTPUT_DIR)
    ensures Child(CATEGORY_DIR, cat) != ThumbsOf(CATEGORY_DIR, c)
    ensures !IsChildOf(Child(CATEGORY_DIR, cat), ThumbsOf(CATEGORY_DIR, c))
    ensures !IsChildOf(ThumbsOf(CATEGORY_DIR, cat), ThumbsOf(CATEGORY_DIR, c))
    ensures ThumbsOf(CATEGORY_DIR, cat) == ThumbsOf(CATEGORY_DIR, c) ==> cat == c
  {
    var dir, dir' := Child(CATEGORY_DIR, cat), Child(CATEGORY_DIR, c);
    ChildPath(CATEGORY_DIR, cat);
    ChildPath(CATEGORY_DIR, c);
    ChildPath(dir, "thumbs");
    ChildPath(dir', "thumbs");
    assert |dir| == 25 + |cat| && |dir'| == 25 + |c|;
    assert |ThumbsOf(CATEGORY_DIR, c)| == 32 + |c|;
  }

  /** The only paths `fs'` has beyond `fs` are the thumbnail directory
      and the thumbnails in it, and inside category directories a `thumbs`
      directory and the thumbnails in it. */
  ghost predicate OnlyThumbnailsAdded(fs: FileSystem, fs': FileSystem) {
    forall p :: p in fs' && p !in fs ==>
      || p == OUTPUT_DIR || IsChildOf(p, OUTPUT_DIR)
      || exists c :: '/' !in c && Child(CATEGORY_DIR, c) in fs'
                     && (p == ThumbsOf(CATEGORY_DIR, c) || IsChildOf(p, ThumbsOf(CATEGORY_DIR, c)))
  }

  lemma CategoryDirNotAdded(fs: FileSystem, fs': FileSystem, cat: Name)
    requires OnlyThumbnailsAdded(fs, fs') && '/' !in cat && Child(CATEGORY_DIR, cat) !in fs
    ensures Child(CATEGORY_DIR, cat) !in fs'
  {
    var dir := Child(CATEGORY_DIR, cat);
    if dir in fs' {
      CategoryPathsDistinct(cat, cat);
      var c :| '/' !in c && Child(CATEGORY_DIR, c) in fs'
                && (dir == ThumbsOf(CATEGORY_DIR, c) || IsChildOf(dir, ThumbsOf(CATEGORY_DIR, c)));
      CategoryPathsDistinct(cat, c);
      assert false;
    }
  }

  lemma MissingCategoryNotAdded(fs: FileSystem, fs': FileSystem, cat: Name)
    requires OnlyThumbnailsAdded(fs, fs') && '/' !in cat
    requires Child(CATEGORY_DIR, cat) !in fs && ThumbsOf(CATEGORY_DIR, cat) !in fs
    ensures ThumbsOf(CATEGORY_DIR, cat) !in fs'
  {
    var thumbs := ThumbsOf(CATEGORY_DIR, cat);
    CategoryDirNotAdded(fs, fs', cat);
    if thumbs in fs' {
      CategoryPathsDistinct(cat, cat);
      var c :| '/' !in c && Child(CATEGORY_DIR, c) in fs'
                && (thumbs == ThumbsOf(CATEGORY_DIR, c) || IsChildOf(thumbs, ThumbsOf(CATEGORY_DIR, c)));
      CategoryPathsDistinct(cat, c);
      assert false;
    }
  }

  /** A name whose category directory does not exist gets no `thumbs`
      directory from a run. */
  lemma RunSkipsMissingCategory(fs: FileSystem, broken: set<Path>, now: Time, cat: Name)
    requires WellFormed(fs) && '/' !in cat
    requires Child(CATEGORY_DIR, cat) !in fs && ThumbsOf(CATEGORY_DIR, cat) !in fs
    ensures ThumbsOf(CATEGORY_DIR, cat) !in RunSpec(fs, broken, now).0
  {
    RunAddsOnlyThumbnails(fs, broken, now);
    MissingCategoryNotAdded(fs, RunSpec(fs, broken, now).0, cat);
  }

  // ---------------------------------------------------------------------
  // A run leaves the photos alone

  /** `p` is directly inside a directory a run writes thumbnails to: the
      thumbnail directory or a category's `thumbs`. */
  ghost predicate InThumbnailDir(p: Path) {
    IsChildOf(p, OUTPUT_DIR) || exists c :: '/' !in c && IsChildOf(p, ThumbsOf(CATEGORY_DIR, c))
  }

  /** Every file outside the thumbnail directories is the same in both file
      systems, and none appears or vanishes there. */
  ghost predicate SourcesKept(fs: FileSystem, fs': FileSystem) {
    forall p :: !InThumbnailDir(p) ==> (IsFile(fs, p) <==> IsFile(fs', p)) && (IsFile(fs, p) ==> fs'[p] == fs[p])
  }

  lemma {:induction false} RunCategoriesKeepsSources(fs: FileSystem, cats: seq<Name>, broken: set<Path>, now: Time)
    requires WellFormed(fs) && forall c :: c in cats ==> '/' !in c
    ensures SourcesKept(fs, RunCategories(fs, CATEGORY_DIR, cats, broken, now).0)
    decreases |cats|
  {
    if cats != [] {
      var init, cat := cats[..|cats| - 1], cats[|cats| - 1];
      assert forall c :: c in init ==> c in cats;
      RunCategoriesKeepsSources(fs, init, broken, now);
      RunCategoriesFootprint(fs, CATEGORY_DIR, init, broken, now);
      var (fs1, ok) := RunCategories(fs, CATEGORY_DIR, init, broken, now);
      if ok {
        var fs2 := ProcessDirectorySpec(fs1, Child(CATEGORY_DIR, cat), ThumbsOf(CATEGORY_DIR, cat), broken, now).0;
        ProcessDirectoryKeepsSources(fs1, Child(CATEGORY_DIR, cat), ThumbsOf(CATEGORY_DIR, cat), broken, now);
        forall p | !InThumbnailDir(p)
          ensures (IsFile(fs, p) <==> IsFile(fs2, p)) && (IsFile(fs, p) ==> fs2[p] == fs[p])
        {
          assert !IsChildOf(p, ThumbsOf(CATEGORY_DIR, cat));
        }
      }
    }
  }

  /** A run changes no file outside the thumbnail directories: every photo
      keeps its node, and no file appears or vanishes elsewhere. */
  lemma RunKeepsSources(fs: FileSystem, broken: set<Path>, now: Time)
    requires WellFormed(fs)
    ensures SourcesKept(fs, RunSpec(fs, broken, now).0)
  {
    ProcessDirectoryKeepsSources(fs, INPUT_DIR, OUTPUT_DIR, broken, now);
    ProcessDirectoryNewPaths(fs, INPUT_DIR, OUTPUT_DIR, broken, now);
    var (fs1, top) := ProcessDirectorySpec(fs, INPUT_DIR, OUTPUT_DIR, broken, now);
    assert SourcesKept(fs, fs1);
    if !top.Crashed? && IsDir(fs1, CATEGORY_DIR) {
      var cats := Subdirectories(fs1, CATEGORY_DIR, fs1[CATEGORY_DIR].entries);
      forall c | c in cats
        ensures '/' !in c
      {
        ListedEntryExists(fs1, CATEGORY_DIR, c);
      }
      RunCategoriesKeepsSources(fs1, cats, broken, now);
    }
  }

  // ---------------------------------------------------------------------
  // Running the script twice

  /** The category loop leaves the categories root and the photo directory
      as they were, and every category name a directory exactly when it
      was one. */
  lemma {:induction false} RunCategoriesKeepsRoots(fs: FileSystem, cats: seq<Name>, broken: set<Path>, now: Time)
    requires WellFormed(fs) && forall c :: c in cats ==> '/' !in c && IsDir(fs, Child(CATEGORY_DIR, c))
    ensures var fs' := RunCategories(fs, CATEGORY_DIR, cats, broken, now).0;
      && Untouched(fs, fs', CATEGORY_DIR) && Untouched(fs, fs', INPUT_DIR)
      && forall n :: '/' !in n ==> (IsDir(fs', Child(CATEGORY_DIR, n)) <==> IsDir(fs, Child(CATEGORY_DIR, n)))
    decreases |cats|
  {
    if cats != [] {
      var init, cat := cats[..|cats| - 1], cats[|cats| - 1];
      assert forall c :: c in init ==> c in cats;
      RunCategoriesKeepsRoots(fs, init, broken, now);
      RunCategoriesFootprint(fs, CATEGORY_DIR, init, broken, now);
      var (fs1, ok) := RunCategories(fs, CATEGORY_DIR, init, broken, now);
      if ok {
        var dir, thumbs := Child(CATEGORY_DIR, cat), ThumbsOf(CATEGORY_DIR, cat);
        var fs2 := ProcessDirectorySpec(fs1, dir, thumbs, broken, now).0;
        DirectoryLiterals();
        CategoryLayout(cat);
        ChildPath(CATEGORY_DIR, cat);
        ChildPath(dir, "thumbs");
        ShorterNotChild(CATEGORY_DIR, thumbs);
        PassFrame(fs1, dir, thumbs, broken, now, CATEGORY_DIR);
        TopApartFromCategory(cat);
        PassFrame(fs1, dir, thumbs, broken, now, INPUT_DIR);
        forall n | '/' !in n
          ensures IsDir(fs2, Child(CATEGORY_DIR, n)) <==> IsDir(fs1, Child(CATEGORY_DIR, n))
        {
          if n == cat {
            PassKeepsDir(fs1, dir, thumbs, broken, now, dir);
          } else {
            CategoriesApart(n, cat);
            PassFrame(fs1, dir, thumbs, broken, now, Child(CATEGORY_DIR, n));
          }
        }
      }
    }
  }

  /** The category loop keeps the photo directory's pass done. */
  lemma {:induction false} RunCategoriesKeepsTopDone(fs: FileSystem, cats: seq<Name>, broken: set<Path>, now: Time)
    requires WellFormed(fs) && PassDone(fs, INPUT_DIR, OUTPUT_DIR, broken) && forall c :: c in cats ==> '/' !in c
    ensures PassDone(RunCategories(fs, CATEGORY_DIR, cats, broken, now).0, INPUT_DIR, OUTPUT_DIR, broken)
    decreases |cats|
  {
    if cats != [] {
      var init, cat := cats[..|cats| - 1], cats[|cats| - 1];
      assert forall c :: c in init ==> c in cats;
      RunCategoriesKeepsTopDone(fs, init, broken, now);
      RunCategoriesFootprint(fs, CATEGORY_DIR, init, broken, now);
      var (fs1, ok) := RunCategories(fs, CATEGORY_DIR, init, broken, now);
      if ok {
        TopApartFromCategory(cat);
        PassKeepsOtherPass(fs1, Child(CATEGORY_DIR, cat), ThumbsOf(CATEGORY_DIR, cat), broken, now, INPUT_DIR, OUTPUT_DIR);
      }
    }
  }

  /** A category's photos stay older than the clock while only thumbnails
      are written. */
  lemma KeptInputsOlder(fs: FileSystem, fs': FileSystem, cat: Name, now: Time)
    requires '/' !in cat && SourcesKept(fs, fs') && InputsOlder(fs, Child(CATEGORY_DIR, cat), now)
    ensures InputsOlder(fs', Child(CATEGORY_DIR, cat), now)
  {
    var dir := Child(CATEGORY_DIR, cat);
    DirectoryLiterals();
    CategoryLayout(cat);
    forall p | IsFile(fs', p) && IsChildOf(p, dir)
      ensures fs'[p].mtime < now
    {
      forall c | '/' !in c
        ensures !IsChildOf(p, ThumbsOf(CATEGORY_DIR, c))
      {
        CategoryPathsDistinct(cat, c);
      }
      assert !InThumbnailDir(p);
    }
  }

  /** Every listed category's pass is done. */
  ghost predicate CategoriesDone(fs: FileSystem, cats: seq<Name>, broken: set<Path>) {
    forall c :: c in cats ==> PassDone(fs, Child(CATEGORY_DIR, c), ThumbsOf(CATEGORY_DIR, c), broken)
  }

  /** A category's pass leaves itself done, and every other category's
      pass as done as it was. */
  lemma CategoryPassKeepsDone(fs: FileSystem, cat: Name, done: seq<Name>, broken: set<Path>, now: Time)
    requires WellFormed(fs) && '/' !in cat && InputsOlder(fs, Child(CATEGORY_DIR, cat), now)
    requires (forall c :: c in done ==> '/' !in c) && CategoriesDone(fs, done, broken)
    ensures CategoriesDone(ProcessDirectorySpec(fs, Child(CATEGORY_DIR, cat), ThumbsOf(CATEGORY_DIR, cat), broken, now).0, done + [cat], broken)
  {
    var dir, thumbs := Child(CATEGORY_DIR, cat), ThumbsOf(CATEGORY_DIR, cat);
    CategoryLayout(cat);
    PassEstablishesDone(fs, dir, thumbs, broken, now);
    forall c | c in done + [cat]
      ensures PassDone(ProcessDirectorySpec(fs, dir, thumbs, broken, now).0, Child(CATEGORY_DIR, c), ThumbsOf(CATEGORY_DIR, c), broken)
    {
      if c != cat {
        CategoriesApart(c, cat);
        PassKeepsOtherPass(fs, dir, thumbs, broken, now, Child(CATEGORY_DIR, c), ThumbsOf(CATEGORY_DIR, c));
      }
    }
  }

  /** After the category loop every category's pass is done. */
  lemma {:induction false} RunCategoriesDone(fs: FileSystem, cats: seq<Name>, broken: set<Path>, now: Time)
    requires WellFormed(fs)
    requires forall c :: c in cats ==> '/' !in c && InputsOlder(fs, Child(CATEGORY_DIR, c), now)
    ensures var (fs', ok) := RunCategories(fs, CATEGORY_DIR, cats, broken, now);
      ok ==> CategoriesDone(fs', cats, broken)
    decreases |cats|
  {
    if cats != [] {
      var init, cat := cats[..|cats| - 1], cats[|cats| - 1];
      assert cats == init + [cat];
      RunCategoriesDone(fs, init, broken, now);
      RunCategoriesFootprint(fs, CATEGORY_DIR, init, broken, now);
      RunCategoriesKeepsSources(fs, init, broken, now);
      var (fs1, ok) := RunCategories(fs, CATEGORY_DIR, init, broken, now);
      if ok {
        KeptInputsOlder(fs, fs1, cat, now);
        CategoryPassKeepsDone(fs1, cat, init, broken, now);
      }
    }
  }

  /** The category directories a listing names are found the same way in
      two file systems that agree on which of them are directories. */
  lemma {:induction false} SubdirectoriesFrame(fs: FileSystem, fs': FileSystem, root: Path, entries: seq<Name>)
    requires forall n :: n in entries ==> (IsDir(fs, Child(root, n)) <==> IsDir(fs', Child(root, n)))
    ensures Subdirectories(fs, root, entries) == Subdirectories(fs', root, entries)
    decreases |entries|
  {
    if entries != [] {
      var init := entries[..|entries| - 1];
      assert forall n :: n in init ==> n in entries;
      SubdirectoriesFrame(fs, fs', root, init);
    }
  }

  /** A category loop over categories whose passes are done writes nothing. */
  lemma {:induction false} RunCategoriesDoneIsIdentity(fs: FileSystem, cats: seq<Name>, broken: set<Path>, later: Time)
    requires (forall c :: c in cats ==> IsDir(fs, Child(CATEGORY_DIR, c))) && CategoriesDone(fs, cats, broken)
    ensures RunCategories(fs, CATEGORY_DIR, cats, broken, later) == (fs, true)
    decreases |cats|
  {
    if cats != [] {
      var init, cat := cats[..|cats| - 1], cats[|cats| - 1];
      assert forall c :: c in init ==> c in cats;
      RunCategoriesDoneIsIdentity(fs, init, broken, later);
      PassDoneIsIdentity(fs, Child(CATEGORY_DIR, cat), ThumbsOf(CATEGORY_DIR, cat), broken, later);
    }
  }

  /** After a category loop whose photos were older than the clock, the
      same loop again lists the same categories and writes nothing. */
  lemma CategoryLoopIdempotent(fs: FileSystem, broken: set<Path>, now: Time, later: Time)
    requires WellFormed(fs) && IsDir(fs, CATEGORY_DIR) && PassDone(fs, INPUT_DIR, OUTPUT_DIR, broken)
    requires forall c :: '/' !in c ==> InputsOlder(fs, Child(CATEGORY_DIR, c), now)
    ensures var cats := Subdirectories(fs, CATEGORY_DIR, fs[CATEGORY_DIR].entries);
      var (fs', ok) := RunCategories(fs, CATEGORY_DIR, cats, broken, now);
      ok ==>
        && PassDone(fs', INPUT_DIR, OUTPUT_DIR, broken)
        && Untouched(fs, fs', INPUT_DIR) && Untouched(fs, fs', CATEGORY_DIR)
        && Subdirectories(fs', CATEGORY_DIR, fs'[CATEGORY_DIR].entries) == cats
        && RunCategories(fs', CATEGORY_DIR, cats, broken, later) == (fs', true)
  {
    var entries := fs[CATEGORY_DIR].entries;
    var cats := Subdirectories(fs, CATEGORY_DIR, entries);
    forall n | n in entries
      ensures '/' !in n
    {
      ListedEntryExists(fs, CATEGORY_DIR, n);
    }
    RunCategoriesKeepsRoots(fs, cats, broken, now);
    RunCategoriesKeepsTopDone(fs, cats, broken, now);
    RunCategoriesDone(fs, cats, broken, now);
    var (fs', ok) := RunCategories(fs, CATEGORY_DIR, cats, broken, now);
    if ok {
      SubdirectoriesFrame(fs, fs', CATEGORY_DIR, entries);
      RunCategoriesDoneIsIdentity(fs', cats, broken, later);
    }
  }

  /** The photo directory's pass, run again once it is done, repeats the
      first pass's outcome with nothing generated. */
  lemma TopPassRerun(fs: FileSystem, fs1: FileSystem, fs2: FileSystem, top: Outcome, broken: set<Path>, now: Time, later: Time)
    requires (fs1, top) == ProcessDirectorySpec(fs, INPUT_DIR, OUTPUT_DIR, broken, now) && !top.Crashed?
    requires top.Summary? ==> IsDir(fs1, INPUT_DIR) && top.total == |Candidates(fs1[INPUT_DIR].entries)|
    requires fs.Keys <= fs1.Keys && PassDone(fs2, INPUT_DIR, OUTPUT_DIR, broken) && Untouched(fs1, fs2, INPUT_DIR)
    ensures ProcessDirectorySpec(fs2, INPUT_DIR, OUTPUT_DIR, broken, later)
         == (fs2, if top.Summary? then Summary(top.total, 0) else Missing)
  {
    PassDoneIsIdentity(fs2, INPUT_DIR, OUTPUT_DIR, broken, later);
  }

  /** Running the script a second time writes nothing and generates
      nothing: when every file is older than the first run's clock and the
      first run completes, the second run, at any time, leaves the file
      system as the first left it and reports 0 generated of the same
      total. */
  lemma RunIdempotent(fs: FileSystem, broken: set<Path>, now: Time, later: Time)
    requires WellFormed(fs) && forall p :: IsFile(fs, p) ==> fs[p].mtime < now
    ensures var (fs', result) := RunSpec(fs, broken, now);
      result.Completed? ==>
        RunSpec(fs', broken, later)
          == (fs', Completed(if result.report.Some? then Some(Report(0, result.report.value.total)) else None))
  {
    DirectoryLiterals();
    PassEstablishesDone(fs, INPUT_DIR, OUTPUT_DIR, broken, now);
    ProcessDirectoryNewPaths(fs, INPUT_DIR, OUTPUT_DIR, broken, now);
    var (fs1, top) := ProcessDirectorySpec(fs, INPUT_DIR, OUTPUT_DIR, broken, now);
    if !top.Crashed? {
      var report := if top.Summary? then Some(Report(top.processed, top.total)) else None;
      var report' := if top.Summary? then Some(Report(0, top.total)) else None;
      if CATEGORY_DIR !in fs1 {
        TopPassRerun(fs, fs1, fs1, top, broken, now, later);
        assert RunSpec(fs, broken, now) == (fs1, Completed(report));
        assert RunSpec(fs1, broken, later) == (fs1, Completed(report'));
      } else if IsDir(fs1, CATEGORY_DIR) {
        ProcessDirectoryKeepsSources(fs, INPUT_DIR, OUTPUT_DIR, broken, now);
        assert SourcesKept(fs, fs1);
        forall c | '/' !in c
          ensures InputsOlder(fs1, Child(CATEGORY_DIR, c), now)
        {
          KeptInputsOlder(fs, fs1, c, now);
        }
        CategoryLoopIdempotent(fs1, broken, now, later);
        var cats := Subdirectories(fs1, CATEGORY_DIR, fs1[CATEGORY_DIR].entries);
        var (fs2, ok) := RunCategories(fs1, CATEGORY_DIR, cats, broken, now);
        if ok {
          TopPassRerun(fs, fs1, fs2, top, broken, now, later);
          assert RunSpec(fs, broken, now) == (fs2, Completed(report));
          assert RunSpec(fs2, broken, later) == (fs2, Completed(report'));
        }
      }
    }
  }
}
