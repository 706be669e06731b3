/**
 * What each step of `setupChart` does to the project tree, as functions on
 * a map from root-relative path to file content: the removal of the template
 * items (`removeItems`), the token substitution (`modifyContents`), the
 * renames (`renameItems`) and the manifest rewrite of `finalize`.
 */
module Setup {
  import opened Wrappers
  import opened Text
  import opened Manifest

  /** The project tree: every file, by its path relative to the project root. */
  type FileSystem = map<string, string>

  const RmDirs: seq<string> := [".git", "tools"]
  const RmFiles: seq<string> := ["tools/init.js"]

  /** `rmDirs.concat(rmFiles)`. */
  const RmItems: seq<string> := RmDirs + RmFiles

  const ModifyFiles: seq<string> := ["LICENSE", "package.json", "webpack.config.js", "src/index.js"]

  /** Pairs of current path and new path, the new path still holding the name token. */
  const RenameFiles: seq<(string, string)> :=
    [("src/index.js", "src/--chartname--.js"), ("src/index.css", "src/--chartname--.css")]

  const ChartToken := "--chartname--"
  const UserToken := "--username--"
  const MailToken := "--usermail--"
  const PackageFile := "package.json"

  predicate IsPrefix(p: string, s: string) {
    |p| <= |s| && s[..|p|] == p
  }

  /** `path` is the item itself or lies inside the directory `item`. */
  predicate Under(path: string, item: string) {
    path == item || IsPrefix(item + "/", path)
  }

  predicate RemovedBy(path: string, items: seq<string>) {
    exists i :: 0 <= i < |items| && Under(path, items[i])
  }

  /** `rm('-rf', items)`: each item and everything inside it goes; an item that is not there is skipped. */
  function RemoveAll(fs: FileSystem, items: seq<string>): (r: FileSystem)
    ensures forall p :: p in r <==> p in fs && !RemovedBy(p, items)
    ensures forall p :: p in r ==> r[p] == fs[p]
    decreases |items|
  {
    if items == [] then fs
    else
      var n := |items| - 1;
      var kept := RemoveAll(fs, items[..n]);
      assert forall p :: RemovedBy(p, items) <==> RemovedBy(p, items[..n]) || Under(p, items[n]) by {
        forall p
          ensures RemovedBy(p, items) <==> RemovedBy(p, items[..n]) || Under(p, items[n])
        {
          if RemovedBy(p, items[..n]) {
            var i :| 0 <= i < n && Under(p, items[..n][i]);
            assert Under(p, items[i]);
          }
        }
      }
      map p | p in kept && !Under(p, items[n]) :: kept[p]
  }

  /** Removing twice is removing once. */
  lemma RemoveAllIdempotent(fs: FileSystem, items: seq<string>)
    ensures RemoveAll(RemoveAll(fs, items), items) == RemoveAll(fs, items)
  {
  }

  /** `tools/init.js` lies inside `tools`, so listing it separately removes nothing more. */
  lemma RmFilesInsideRmDirs(fs: FileSystem)
    ensures RemoveAll(fs, RmItems) == RemoveAll(fs, RmDirs)
  {
    forall p | Under(p, "tools/init.js")
      ensures Under(p, "tools")
    {
      if p != "tools/init.js" {
        assert p[..6] == ("tools/init.js/")[..6];
      }
    }
    assert forall p :: RemovedBy(p, RmItems) <==> RemovedBy(p, RmDirs) by {
      forall p | RemovedBy(p, RmItems)
        ensures RemovedBy(p, RmDirs)
      {
        var i :| 0 <= i < |RmItems| && Under(p, RmItems[i]);
        if i == 2 {
          assert Under(p, RmDirs[1]);
        } else {
          assert Under(p, RmDirs[i]);
        }
      }
      forall p | RemovedBy(p, RmDirs)
        ensures RemovedBy(p, RmItems)
      {
        var i :| 0 <= i < |RmDirs| && Under(p, RmDirs[i]);
        assert Under(p, RmItems[i]);
      }
    }
  }

  /**
   * The three global replacements of `modifyContents`, applied one after the
   * other in the order the source lists them, so a value inserted by an
   * earlier one is seen by the later ones.
   */
  function Substitute(text: string, name: string, user: string, mail: string): string {
    ReplaceAll(ReplaceAll(ReplaceAll(text, ChartToken, name), UserToken, user), MailToken, mail)
  }

  /** A file without any of the three tokens is left as it is. */
  lemma SubstituteWithoutTokens(text: string, name: string, user: string, mail: string)
    requires !Contains(text, ChartToken) && !Contains(text, UserToken) && !Contains(text, MailToken)
    ensures Substitute(text, name, user, mail) == text
  {
    ReplaceAllWithoutToken(text, ChartToken, name);
    ReplaceAllWithoutToken(text, UserToken, user);
    ReplaceAllWithoutToken(text, MailToken, mail);
  }

  /** A text with one name token and no other token: the name takes exactly its place. */
  lemma SubstituteOneNameToken(x: string, y: string, name: string, user: string, mail: string)
    requires NoneBefore(x + ChartToken + y, ChartToken, |x|)
    requires !Contains(y, ChartToken)
    requires !Contains(x + name + y, UserToken) && !Contains(x + name + y, MailToken)
    ensures Substitute(x + ChartToken + y, name, user, mail) == x + name + y
  {
    ReplaceAllFirstOccurrence(x, y, ChartToken, name);
    ReplaceAllWithoutToken(y, ChartToken, name);
    ReplaceAllWithoutToken(x + name + y, UserToken, user);
    ReplaceAllWithoutToken(x + name + y, MailToken, mail);
  }

  /** The replacements are sequential: a name holding the user token has it replaced by the user name. */
  lemma SubstituteIsSequential(mail: string)
    ensures Substitute(ChartToken, UserToken, "ann", mail) == "ann"
  {
    assert ChartToken == [] + ChartToken + [];
    ReplaceAllFirstOccurrence([], [], ChartToken, UserToken);
    assert UserToken == [] + UserToken + [];
    ReplaceAllFirstOccurrence([], [], UserToken, "ann");
  }

  /** The tree holds a file at `path` with exactly `content`. */
  predicate HasFile(fs: FileSystem, path: string, content: string) {
    path in fs && fs[path] == content
  }

  predicate AllPresent(fs: FileSystem, files: seq<string>) {
    forall f :: f in files ==> f in fs
  }

  /**
   * `replace.sync` over `files`: every path is looked up before anything is
   * written, and a path with no file throws, which `modifyContents` catches,
   * so then nothing changes at all; otherwise each listed file gets its
   * substitution.
   */
  function ModifyAll(fs: FileSystem, files: seq<string>, name: string, user: string, mail: string)
    : (r: FileSystem)
    ensures r.Keys == fs.Keys
    ensures forall p :: p in fs && p !in files ==> r[p] == fs[p]
  {
    if !AllPresent(fs, files) then fs
    else map p | p in fs :: if p in files then Substitute(fs[p], name, user, mail) else fs[p]
  }

  /** With every listed file present, each gets its substitution and a file without tokens stays as it was. */
  lemma ModifyAllSubstitutes(fs: FileSystem, files: seq<string>, name: string, user: string, mail: string)
    requires AllPresent(fs, files)
    ensures forall f :: f in files ==>
      ModifyAll(fs, files, name, user, mail)[f] == Substitute(fs[f], name, user, mail)
  {
  }

  /** One missing file means no file is modified. */
  lemma ModifyAllOrNothing(fs: FileSystem, files: seq<string>, f: string, name: string, user: string, mail: string)
    requires f in files && f !in fs
    ensures ModifyAll(fs, files, name, user, mail) == fs
  {
  }

  /** `files[1].replace(/--chartname--/g, chartName)`. */
  function ResolveRename(target: string, name: string): string {
    ReplaceAll(target, ChartToken, name)
  }

  /** A target made of a hyphen-free directory part, the token and a short extension. */
  lemma ResolveOneToken(x: string, y: string, name: string)
    requires forall i :: 0 <= i < |x| ==> x[i] != '-'
    requires |y| < |ChartToken|
    ensures ResolveRename(x + ChartToken + y, name) == x + name + y
  {
    var s := x + ChartToken + y;
    forall i: nat | i < |x|
      ensures !OccursAt(s, ChartToken, i)
    {
      assert s[i] == x[i];
    }
    ReplaceAllFirstOccurrence(x, y, ChartToken, name);
  }

  /** The two renames resolve to `src/<name>.js` and `src/<name>.css`, whatever the name. */
  lemma RenameTargets(name: string)
    ensures ResolveRename(RenameFiles[0].1, name) == "src/" + name + ".js"
    ensures ResolveRename(RenameFiles[1].1, name) == "src/" + name + ".css"
  {
    assert RenameFiles[0].1 == "src/" + ChartToken + ".js";
    assert RenameFiles[1].1 == "src/" + ChartToken + ".css";
    ResolveOneToken("src/", ".js", name);
    ResolveOneToken("src/", ".css", name);
  }

  /**
   * `mv(from, to)`: the file moves to its new path, replacing a file already
   * there; a missing source is an error shelljs reports without stopping.
   */
  function Move(fs: FileSystem, from: string, to: string): (r: FileSystem)
    ensures from !in fs ==> r == fs
    ensures from in fs ==> to in r && r[to] == fs[from] && (from != to ==> from !in r)
    ensures forall p :: p != from && p != to ==> (p in r <==> p in fs) && (p in r ==> r[p] == fs[p])
  {
    if from !in fs then fs else (fs - {from})[to := fs[from]]
  }

  /** The renames applied in list order. */
  function ApplyRenames(fs: FileSystem, renames: seq<(string, string)>, name: string): FileSystem
    decreases |renames|
  {
    if renames == [] then fs
    else
      var n := |renames| - 1;
      Move(ApplyRenames(fs, renames[..n], name), renames[n].0, ResolveRename(renames[n].1, name))
  }

  /** The list of renames is these two moves, in this order. */
  lemma ApplyRenameFiles(fs: FileSystem, name: string)
    ensures ApplyRenames(fs, RenameFiles, name) ==
      Move(Move(fs, "src/index.js", "src/" + name + ".js"), "src/index.css", "src/" + name + ".css")
  {
    RenameTargets(name);
    assert RenameFiles[..1][..0] == [] && RenameFiles[..1][0] == RenameFiles[0];
    assert RenameFiles[..|RenameFiles| - 1] == RenameFiles[..1];
  }

  /** The new paths differ from each other and from the second source path. */
  lemma RenamePathsDistinct(name: string)
    ensures "src/" + name + ".js" != "src/" + name + ".css"
    ensures "src/" + name + ".js" != "src/index.css"
    ensures "src/" + name + ".css" != "src/index.js"
    ensures name != "index" ==> "src/" + name + ".js" != "src/index.js"
  {
    var js := "src/" + name + ".js";
    var css := "src/" + name + ".css";
    assert js[|js| - 3] == '.' && css[|css| - 3] == 'c';
    assert "src/index.css"[|"src/index.css"| - 3] == 'c';
    assert "src/index.js"[|"src/index.js"| - 3] == '.';
    if js == "src/index.js" {
      assert js[4..|js| - 3] == name;
      assert "src/index.js"[4..9] == "index";
    }
  }

  /** The template's entry file ends up under the chart's name, with its content, whatever the name. */
  lemma RenamesMoveEntryPoint(fs: FileSystem, name: string)
    requires "src/index.js" in fs
    ensures "src/" + name + ".js" in ApplyRenames(fs, RenameFiles, name)
    ensures ApplyRenames(fs, RenameFiles, name)["src/" + name + ".js"] == fs["src/index.js"]
    ensures name != "index" ==> "src/index.js" !in ApplyRenames(fs, RenameFiles, name)
  {
    ApplyRenameFiles(fs, name);
    RenamePathsDistinct(name);
  }

  /** The renames touch only files in `src`, so the manifest keeps its path and content. */
  lemma RenamesKeepManifest(fs: FileSystem, name: string)
    ensures PackageFile in ApplyRenames(fs, RenameFiles, name) <==> PackageFile in fs
    ensures PackageFile in fs ==> ApplyRenames(fs, RenameFiles, name)[PackageFile] == fs[PackageFile]
  {
    ApplyRenameFiles(fs, name);
    var js := "src/" + name + ".js";
    var css := "src/" + name + ".css";
    assert PackageFile != js && PackageFile != css by {
      assert js[..4] == "src/" && css[..4] == "src/";
      assert PackageFile[..4] == "pack";
    }
  }

  /**
   * The manifest rewrite of `finalize`: read and parse `package.json`, prune
   * it and write back its serialisation. Reading a missing file, a parse
   * error and a `TypeError` in the pruning all throw out of the script
   * before the write; `None` is that outcome.
   */
  function FinalizeFs(fs: FileSystem, parse: string -> Option<Json>, stringify: Json -> string)
    : (r: Option<FileSystem>)
    ensures r.Some? <==>
      PackageFile in fs && parse(fs[PackageFile]).Some? && Prune(parse(fs[PackageFile]).value).Some?
    ensures r.Some? ==>
      && r.value.Keys == fs.Keys
      && r.value[PackageFile] == stringify(Prune(parse(fs[PackageFile]).value).value)
      && forall p :: p in fs && p != PackageFile ==> r.value[p] == fs[p]
  {
    if PackageFile !in fs then None
    else
      match parse(fs[PackageFile])
      case None => None
      case Some(pkg) =>
        match Prune(pkg)
        case None => None
        case Some(pruned) => Some(fs[PackageFile := stringify(pruned)])
  }

  /** The tree after removal, substitution and renaming, before `finalize`. */
  function Staged(fs: FileSystem, name: string, user: string, mail: string): FileSystem {
    ApplyRenames(ModifyAll(RemoveAll(fs, RmItems), ModifyFiles, name, user, mail), RenameFiles, name)
  }

  /** No file to be modified lies inside a removed item. */
  lemma ModifyFilesSurviveRemoval()
    ensures forall f :: f in ModifyFiles ==> !RemovedBy(f, RmItems)
  {
    forall i, j | 0 <= i < |ModifyFiles| && 0 <= j < |RmItems|
      ensures !Under(ModifyFiles[i], RmItems[j])
    {
      FirstCharDiffers(ModifyFiles[i], RmItems[j]);
    }
  }

  lemma FirstCharDiffers(path: string, item: string)
    requires path != [] && item != [] && path[0] != item[0]
    ensures !Under(path, item)
  {
  }

  /**
   * The substitution still targets the template's `src/index.js`, and the
   * renames move the substituted file: with every file to be modified in
   * place, `src/<name>.js` holds the substituted entry point.
   */
  lemma StagedEntryPoint(fs: FileSystem, name: string, user: string, mail: string)
    requires AllPresent(fs, ModifyFiles)
    ensures HasFile(Staged(fs, name, user, mail), "src/" + name + ".js",
      Substitute(fs["src/index.js"], name, user, mail))
  {
    ModifyFilesSurviveRemoval();
    var removed := RemoveAll(fs, RmItems);
    assert AllPresent(removed, ModifyFiles);
    var modified := ModifyAll(removed, ModifyFiles, name, user, mail);
    ModifyAllSubstitutes(removed, ModifyFiles, name, user, mail);
    assert modified["src/index.js"] == Substitute(fs["src/index.js"], name, user, mail) by {
      assert ModifyFiles[3] == "src/index.js";
    }
    RenamesMoveEntryPoint(modified, name);
  }

  /** Likewise the manifest that `finalize` prunes is the substituted `package.json`. */
  lemma StagedManifest(fs: FileSystem, name: string, user: string, mail: string)
    requires AllPresent(fs, ModifyFiles)
    ensures HasFile(Staged(fs, name, user, mail), PackageFile,
      Substitute(fs[PackageFile], name, user, mail))
  {
    ModifyFilesSurviveRemoval();
    var removed := RemoveAll(fs, RmItems);
    assert AllPresent(removed, ModifyFiles);
    var modified := ModifyAll(removed, ModifyFiles, name, user, mail);
    ModifyAllSubstitutes(removed, ModifyFiles, name, user, mail);
    assert modified[PackageFile] == Substitute(fs[PackageFile], name, user, mail) by {
      assert ModifyFiles[1] == PackageFile;
    }
    RenamesKeepManifest(modified, name);
  }

  /**
   * Why the order matters: had the renames run first, `src/index.js` would be
   * gone and the all-or-nothing substitution would change nothing.
   */
  lemma RenamingFirstSkipsSubstitution(fs: FileSystem, name: string, user: string, mail: string)
    requires "src/index.js" in fs && name != "index"
    ensures var renamed := ApplyRenames(fs, RenameFiles, name);
      ModifyAll(renamed, ModifyFiles, name, user, mail) == renamed
  {
    RenamesMoveEntryPoint(fs, name);
    ModifyAllOrNothing(ApplyRenames(fs, RenameFiles, name), ModifyFiles, "src/index.js", name, user, mail);
  }

  /** A file in `src` is never inside a removed item. */
  lemma SrcNotRemoved(path: string)
    requires |path| > 0 && path[0] == 's'
    ensures !RemovedBy(path, RmItems)
  {
    forall j | 0 <= j < |RmItems|
      ensures !Under(path, RmItems[j])
    {
      FirstCharDiffers(path, RmItems[j]);
    }
  }

  /** The later steps never bring back a path that `removeItems` removed. */
  lemma StagedKeepsRemoved(fs: FileSystem, name: string, user: string, mail: string)
    ensures forall p :: p in Staged(fs, name, user, mail) ==> !RemovedBy(p, RmItems)
  {
    var modified := ModifyAll(RemoveAll(fs, RmItems), ModifyFiles, name, user, mail);
    ApplyRenameFiles(modified, name);
    SrcNotRemoved("src/" + name + ".js");
    SrcNotRemoved("src/" + name + ".css");
  }
}
