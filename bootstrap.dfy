/**
 * The bootstrap script as it runs: the steps of `setupChart` as methods that
 * change the project tree, and the top level, which stops when git is
 * missing, settles the chart name and then runs the setup.
 */
module Bootstrap {
  import opened Wrappers
  import opened Text
  import opened Flow
  import opened Manifest
  import opened Setup

  /** The steps of `setupChart`, recorded as they are carried out. */
  datatype Step = Captured | Removed | Modified | Renamed | Finalized

  /** `setupChart` in order: identity, removal, substitution, renames, finalize. */
  const SetupSteps: seq<Step> := [Captured, Removed, Modified, Renamed, Finalized]

  /**
   * What the script reads from outside: whether its output is a terminal
   * (only then does `process.stdout.getWindowSize` exist), whether `git` is
   * on the path, whether `CI` is set, the base name of the project directory, the answer lines
   * typed at the prompts, and the raw output of `git config user.name` and
   * `git config user.email`.
   */
  datatype Env = Env(
    hasTerminal: bool,
    hasGit: bool,
    ci: bool,
    dirName: string,
    answers: seq<string>,
    gitUserName: string,
    gitUserEmail: string)

  /** The tree the script leaves, its exit status, and the setup steps it went through. */
  datatype Outcome = Outcome(tree: FileSystem, status: int, steps: seq<Step>)

  /**
   * A whole run. Without a terminal the console-clearing code throws before
   * anything else, so nothing changes and the exit status is 1; without git,
   * or without a name, only the template items are removed and the exit
   * status is 1; otherwise the setup runs and the exit status is 0 exactly
   * when `finalize` does not throw.
   */
  function RunOutcome(fs: FileSystem, env: Env, parse: string -> Option<Json>, stringify: Json -> string)
    : Outcome
  {
    if !env.hasTerminal then Outcome(fs, 1, [])
    else if !env.hasGit then Outcome(RemoveAll(fs, RmItems), 1, [Removed])
    else
      match Resolve(env.ci, env.dirName, env.answers)
      case Aborted => Outcome(RemoveAll(fs, RmItems), 1, [Removed])
      case Named(name) =>
        var staged := Staged(fs, name, Trim(env.gitUserName), Trim(env.gitUserEmail));
        match FinalizeFs(staged, parse, stringify)
        case Some(done) => Outcome(done, 0, SetupSteps)
        case None => Outcome(staged, 1, SetupSteps)
  }

  lemma StepsInOrder(t: seq<Step>)
    ensures t + [Captured] + [Removed] + [Modified] + [Renamed] + [Finalized] == t + SetupSteps
  {
  }

  /** The project being bootstrapped, with the JSON library the script calls. */
  class Project {
    var fs: FileSystem
    var trace: seq<Step>
    const parse: string -> Option<Json>
    const stringify: Json -> string

    constructor(tree: FileSystem, parse: string -> Option<Json>, stringify: Json -> string)
      ensures fs == tree && trace == []
      ensures this.parse == parse && this.stringify == stringify
    {
      fs := tree;
      trace := [];
      this.parse := parse;
      this.stringify := stringify;
    }

    /** `removeItems`. */
    method RemoveItems()
      modifies this
      ensures fs == RemoveAll(old(fs), RmItems)
      ensures trace == old(trace) + [Removed]
    {
      fs := RemoveAll(fs, RmItems);
      trace := trace + [Removed];
    }

    /** `modifyContents`; a failure of the replacement is caught and leaves the tree as it was. */
    method ModifyContents(name: string, user: string, mail: string)
      modifies this
      ensures fs == ModifyAll(old(fs), ModifyFiles, name, user, mail)
      ensures trace == old(trace) + [Modified]
    {
      fs := ModifyAll(fs, ModifyFiles, name, user, mail);
      trace := trace + [Modified];
    }

    /** `renameItems`: each pair of `renameFiles` in turn, its new path resolved against the name. */
    method RenameItems(name: string)
      modifies this
      ensures fs == ApplyRenames(old(fs), RenameFiles, name)
      ensures trace == old(trace) + [Renamed]
    {
      var i := 0;
      while i < |RenameFiles|
        invariant 0 <= i <= |RenameFiles|
        invariant fs == ApplyRenames(old(fs), RenameFiles[..i], name)
        invariant trace == old(trace)
      {
        var (from, to) := RenameFiles[i];
        fs := Move(fs, from, ResolveRename(to, name));
        assert RenameFiles[..i + 1][..i] == RenameFiles[..i];
        i := i + 1;
      }
      assert RenameFiles[..i] == RenameFiles;
      trace := trace + [Renamed];
    }

    /**
     * The manifest part of `finalize`: read and parse `package.json`, delete
     * `scripts.postinstall`, replace `devDependencies` by its `omit`, write
     * the result back. `ok` is false where the script throws, before the write.
     */
    method Finalize() returns (ok: bool)
      modifies this
      ensures ok <==> FinalizeFs(old(fs), parse, stringify).Some?
      ensures fs == if ok then FinalizeFs(old(fs), parse, stringify).value else old(fs)
      ensures trace == old(trace) + [Finalized]
    {
      trace := trace + [Finalized];
      if PackageFile !in fs {
        return false;
      }
      var parsed := parse(fs[PackageFile]);
      if parsed.None? {
        return false;
      }
      var pkg := parsed.value;
      if !pkg.Object? || "scripts" !in pkg.fields || pkg.fields["scripts"].Null? {
        return false;
      }
      var scripts := pkg.fields["scripts"];
      if scripts.Object? {
        pkg := Object(pkg.fields["scripts" := Object(scripts.fields - {"postinstall"})]);
      } else {
        assert parsed.value.fields["scripts" := scripts] == parsed.value.fields;
      }
      assert Member(pkg.fields, "devDependencies") == Member(parsed.value.fields, "devDependencies");
      var dev := Omit(Member(pkg.fields, "devDependencies"), RmDevPackages);
      pkg := Object(pkg.fields["devDependencies" := Object(dev)]);
      assert Prune(parsed.value) == Some(pkg);
      fs := fs[PackageFile := stringify(pkg)];
      ok := true;
    }

    /**
     * `setupChart`: the identity is taken, trimmed, before `.git` goes; then
     * removal, substitution, renames and finalize, in this order.
     */
    method SetupChart(name: string, nameOutput: string, mailOutput: string) returns (ok: bool)
      modifies this
      ensures var staged := Staged(old(fs), name, Trim(nameOutput), Trim(mailOutput));
        && (ok <==> FinalizeFs(staged, parse, stringify).Some?)
        && fs == if ok then FinalizeFs(staged, parse, stringify).value else staged
      ensures trace == old(trace) + SetupSteps
    {
      ghost var before := trace;
      trace := trace + [Captured];
      var user := Trim(nameOutput);
      var mail := Trim(mailOutput);
      ghost var start := fs;
      RemoveItems();
      ModifyContents(name, user, mail);
      RenameItems(name);
      assert fs == Staged(start, name, user, mail);
      ok := Finalize();
      StepsInOrder(before);
    }

    /** The script from its first statement to its exit status. */
    method Run(env: Env) returns (status: int)
      modifies this
      ensures var out := RunOutcome(old(fs), env, parse, stringify);
        fs == out.tree && status == out.status && trace == old(trace) + out.steps
    {
      if !env.hasTerminal {
        return 1;
      }
      if !env.hasGit {
        RemoveItems();
        return 1;
      }
      match Resolve(env.ci, env.dirName, env.answers)
      case Aborted =>
        RemoveItems();
        status := 1;
      case Named(name) =>
        var ok := SetupChart(name, env.gitUserName, env.gitUserEmail);
        status := if ok then 0 else 1;
    }
  }

  /**
   * The exit status is 0 or 1, and 0 exactly when the output is a terminal,
   * git is there, a name was settled, and the manifest rewrite went through.
   */
  lemma RunStatus(fs: FileSystem, env: Env, parse: string -> Option<Json>, stringify: Json -> string)
    ensures var out := RunOutcome(fs, env, parse, stringify);
      && (out.status == 0 || out.status == 1)
      && (out.status == 0 <==>
            && env.hasTerminal
            && env.hasGit
            && Resolve(env.ci, env.dirName, env.answers).Named?
            && var name := Resolve(env.ci, env.dirName, env.answers).name;
               FinalizeFs(Staged(fs, name, Trim(env.gitUserName), Trim(env.gitUserEmail)),
                          parse, stringify).Some?)
  {
  }

  /**
   * Every run that gets past the console clearing ends with the template
   * items gone, the failed ones included.
   */
  lemma RunRemovesTemplateItems(fs: FileSystem, env: Env, parse: string -> Option<Json>, stringify: Json -> string)
    ensures env.hasTerminal ==>
      forall p :: p in RunOutcome(fs, env, parse, stringify).tree ==> !RemovedBy(p, RmItems)
  {
    if env.hasTerminal && env.hasGit && Resolve(env.ci, env.dirName, env.answers).Named? {
      var name := Resolve(env.ci, env.dirName, env.answers).name;
      StagedKeepsRemoved(fs, name, Trim(env.gitUserName), Trim(env.gitUserEmail));
    }
  }

  /** Without a terminal the script throws at its first statements: nothing changes. */
  lemma RunWithoutTerminalChangesNothing(fs: FileSystem, env: Env, parse: string -> Option<Json>, stringify: Json -> string)
    requires !env.hasTerminal
    ensures var out := RunOutcome(fs, env, parse, stringify);
      out.tree == fs && out.status == 1 && out.steps == []
  {
  }

  /** A run that stops before setup removes the template items and changes nothing else. */
  lemma RunWithoutNameOnlyRemoves(fs: FileSystem, env: Env, parse: string -> Option<Json>, stringify: Json -> string)
    requires env.hasTerminal
    requires !env.hasGit || Resolve(env.ci, env.dirName, env.answers).Aborted?
    ensures var out := RunOutcome(fs, env, parse, stringify);
      out.tree == RemoveAll(fs, RmItems) && out.status == 1 && out.steps == [Removed]
  {
  }

  /**
   * A successful run on a complete template: the entry point has moved to
   * `src/<name>.js` with its tokens replaced, and `package.json` is the
   * serialisation of the pruned, substituted manifest.
   */
  lemma RunSuccess(fs: FileSystem, env: Env, parse: string -> Option<Json>, stringify: Json -> string)
    requires AllPresent(fs, ModifyFiles)
    requires RunOutcome(fs, env, parse, stringify).status == 0
    ensures env.hasTerminal && env.hasGit
    ensures Resolve(env.ci, env.dirName, env.answers).Named?
    ensures var out := RunOutcome(fs, env, parse, stringify);
      var name := Resolve(env.ci, env.dirName, env.answers).name;
      var user := Trim(env.gitUserName);
      var mail := Trim(env.gitUserEmail);
      && out.steps == SetupSteps
      && HasFile(out.tree, "src/" + name + ".js", Substitute(fs["src/index.js"], name, user, mail))
      && parse(Substitute(fs[PackageFile], name, user, mail)).Some?
      && var pruned := Prune(parse(Substitute(fs[PackageFile], name, user, mail)).value);
         pruned.Some? && HasFile(out.tree, PackageFile, stringify(pruned.value))
  {
    var name := Resolve(env.ci, env.dirName, env.answers).name;
    var user := Trim(env.gitUserName);
    var mail := Trim(env.gitUserEmail);
    StagedEntryPoint(fs, name, user, mail);
    StagedManifest(fs, name, user, mail);
    var js := "src/" + name + ".js";
    assert js != PackageFile by {
      assert js[0] == 's' && PackageFile[0] == 'p';
    }
  }

  /** Under CI the run does not depend on what would have been typed. */
  lemma RunCiIgnoresAnswers(fs: FileSystem, env: Env, answers: seq<string>,
                            parse: string -> Option<Json>, stringify: Json -> string)
    requires env.ci
    ensures RunOutcome(fs, env, parse, stringify) ==
      RunOutcome(fs, env.(answers := answers), parse, stringify)
  {
  }
}
