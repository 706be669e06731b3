# zoomdata-chart-webpack-starter bootstrap, modelled in Dafny

The starter template for Zoomdata custom charts comes with a one-shot
bootstrap script, `tools/init.js`, which runs after the first `npm install`.
The script:

- stops if `git` is missing;
- settles a chart name: under `CI` it takes the name suggested from the
  project directory without asking; otherwise it asks the user to confirm
  that suggestion, or to type a kebab-case name;
- turns the template into the user's chart:
  - it removes the template's own items (`.git`, `tools`);
  - it replaces the `--chartname--`, `--username--` and `--usermail--` tokens
    in four files;
  - it renames `src/index.js` and `src/index.css` after the chart;
  - it prunes `package.json`: the `postinstall` hook and the helper
    development packages go.

This project models that script as Dafny modules:

| file | module | what it holds |
|---|---|---|
| `wrappers.dfy` | `Wrappers` | `Option` |
| `text.dfy` | `Text` | global replacement of a literal token (leftmost, non-overlapping, inserted text not rescanned); stripping of end runs; `String.prototype.trim` with the ECMAScript white-space set |
| `names.dfy` | `Names` | the suggested name (`chartNameSuggested`), the default-directory test, the typed-name pattern `^[a-z]+(-[a-z]+)*$` as a two-state matcher proved equal to its character-level and segment-level descriptions, the yes/no pattern and the accept test |
| `flow.dfy` | `Flow` | the prompt library as a function over a sequence of answer lines (asks again after every answer that fails the pattern; an input that runs out is its error callback), `chartNameCreate`, `chartNameSuggestedAccept` and the top-level dispatch |
| `manifest.dfy` | `Manifest` | parsed JSON values, lodash `omit` (including its treatment of `undefined`, scalars, arrays and strings) and the two statements of `finalize` that edit the manifest |
| `setup.dfy` | `Setup` | the project tree as a map from root-relative path to content, and each step of `setupChart` as a function on it |
| `bootstrap.dfy` | `Bootstrap` | the class `Project`: it holds the tree and a trace of steps, and its methods perform the steps in place. Each method is proved against the `Setup` functions, and the whole run is proved against `RunOutcome` |

Where the intended design of the bootstrap and its code differ, the model
follows the code:

- A suggestion turns every character other than an ASCII letter or digit
  into one hyphen. Inner runs are not collapsed and digits are kept, so the
  suggestion can fail the typed-name pattern (`a__b` becomes `a--b`).
- The default directory is detected by comparing the suggestion, not the raw
  directory name. Under `CI` the suggestion is handed to setup without any
  validation.
- A malformed yes/no answer is asked again because of the prompt's own
  pattern. It never reaches the typed-name prompt.
- The console clearing calls `process.stdout.getWindowSize`, which exists
  only when the output is a terminal. With the output piped, as is usual
  under CI, the script throws before the git check and nothing changes; the
  no-question CI path is reached only from a terminal.
- When `git` is missing, `removeItems` still runs; the exit status is then 1.
- The substitution looks up every listed path before it writes anything. A
  missing file throws, the throw is caught, and no file is modified at all.
- A rename whose source is missing is reported but does not stop the script.
- An aborted typed-name prompt removes the template items and exits with
  status 1.

## Model

| member | source | states |
|---|---|---|
| Text.ReplaceAll | tools/init.js:216-220 | definition: `s.replace(/token/g, value)` for a token without regular-expression operators, as a left-to-right scan; its meaning is stated by the four lemmas below |
| Text.ReplaceAllWithoutToken | tools/init.js:216-220 | a text holding no occurrence of the token comes out of the global replacement unchanged |
| Text.ReplaceAllKeepsPrefix | tools/init.js:216-220 | a prefix with no occurrence starting in it is copied through, and the replacement goes on with the rest |
| Text.ReplaceAllFirstOccurrence | tools/init.js:216-220 | the leftmost occurrence is replaced by the value, and scanning resumes after it |
| Text.ReplaceAllStep | tools/init.js:216-220 | a first character that does not start an occurrence is kept, and the rest is processed on its own |
| Text.Strip | tools/init.js:151 | the result is what lies between the leading and trailing runs: its ends are not in the run set, and everything after it is |
| Text.LeadingRun | tools/init.js:151 | the length of the longest prefix whose characters all satisfy the predicate |
| Text.TrailingRun | tools/init.js:151 | the length of the longest suffix whose characters all satisfy the predicate |
| Text.Trim | tools/init.js:175-176 | definition: `String.prototype.trim`, the stripping of ECMAScript white space and line terminators at both ends; its meaning is `Text.Strip`'s contract and `Text.TrimLine` |
| Text.TrimLine | tools/init.js:175-176 | `git config` output, a value followed by a line terminator, trims to the value |
| Names.Dashify | tools/init.js:150 | definition: the `/[^\w\d]` or `_/g` rewrite to `-`, character by character; characterised by `Names.DashifyOneForOne` |
| Names.Lower | tools/init.js:152 | definition: `toLowerCase` on ASCII text, applied character by character with `Names.LowerChar` |
| Names.DashifyOneForOne | tools/init.js:150 | the rewrite keeps the length: exactly the characters other than ASCII letters and digits become hyphens, one each, every other character is kept, and rewriting again changes nothing |
| Names.LowerChar | tools/init.js:152 | upper-case ASCII letters become lower case; every other character is unchanged |
| Names.Suggest | tools/init.js:147-153 | the suggestion is no longer than the directory name, holds only lower-case letters, digits and hyphens, neither starts nor ends with a hyphen, and is empty when the directory name holds no ASCII letter or digit |
| Names.SuggestOfFramed | tools/init.js:147-153 | separators at both ends are dropped, and each inner separator becomes exactly one hyphen |
| Names.SuggestExample | tools/init.js:147-153 | `My_Cool_Chart!!` is suggested as `my-cool-chart` |
| Names.LowerDashifyExample | tools/init.js:150-152 | `My_Cool_Chart` with its separators made hyphens and lower-cased is `my-cool-chart` |
| Names.SuggestNotAlwaysKebab | tools/init.js:150 | hyphen runs are not collapsed: `a__b` is suggested as `a--b`, which the typed-name pattern rejects |
| Names.SuggestOfSuggestionForm | tools/init.js:147-153 | a string already in suggestion form is its own suggestion |
| Names.SuggestIdempotent | tools/init.js:147-153 | suggesting twice gives the same as suggesting once |
| Names.DefaultCloneIsDefault | tools/init.js:158-160 | a clone in the template's own directory counts as default |
| Names.SuggestKebabIff | tools/init.js:147-153 | in both directions: a suggestion passes the typed-name pattern exactly when it is non-empty, holds no digit and never has two hyphens in a row |
| Names.IsDefault | tools/init.js:158-160 | definition: `chartNameSuggestedIsDefault`, the suggestion compared with `zoomdata-chart-webpack-starter`; see `Names.DefaultCloneIsDefault` and `Flow.ResolveDispatch` |
| Names.KebabFrom | tools/init.js:41 | definition: the two-state matcher for `[a-z]+(-[a-z]+)*`; characterised by `Names.KebabFromShaped` |
| Names.IsKebabName | tools/init.js:41 | definition: the typed-name pattern, the matcher from its start state; characterised in both directions by `Names.KebabNameIff` and `Names.KebabNameIffSegments` |
| Names.KebabShapedCons | tools/init.js:41 | a lower-case letter followed by a string is a kebab name exactly when that string is empty, a kebab name, or a hyphen followed by one |
| Names.KebabFromShaped | tools/init.js:41 | each of the matcher's two states accepts exactly its character-level description |
| Names.KebabNameIff | tools/init.js:41 | in both directions: the typed-name pattern accepts a string exactly when it is non-empty lower-case letters and hyphens, with no hyphen at either end and no two in a row |
| Names.JoinSplitOnDashes | tools/init.js:41 | joining the parts with hyphens gives back the string |
| Names.KebabFromAppend | tools/init.js:41 | after a matched prefix, the matcher goes on from the state it reached |
| Names.KebabFromLetters | tools/init.js:41 | a run of letters is accepted from either state, except that an empty run is refused where a letter is required |
| Names.KebabFromRejects | tools/init.js:41 | any character that is neither a lower-case letter nor a hyphen makes the pattern fail |
| Names.AllSegmentsCons | tools/init.js:41 | a list of parts is all segments exactly when its head is a segment and its tail is all segments |
| Names.KebabNameIffSegments | tools/init.js:41 | in both directions: a string matches exactly when each hyphen-separated part is a non-empty run of lower-case letters |
| Names.KebabAfterSegment | tools/init.js:41 | after a segment and a hyphen the rest must again be a kebab name |
| Names.KebabBadFirstPart | tools/init.js:41 | a first part that is not a segment makes the match fail |
| Names.KebabSingleSegment | tools/init.js:41 | a string without a hyphen matches exactly when it is one non-empty run of lower-case letters |
| Names.KebabFirstSegment | tools/init.js:41 | a string split at its first hyphen matches exactly when the first part is a segment and the rest matches |
| Names.JoinedSegmentsAreKebab | tools/init.js:41 | lower-case segments joined by single hyphens always match |
| Names.MatchesYes | tools/init.js:58 | definition: the `y(es)?` alternative, ignoring ASCII case |
| Names.MatchesNo | tools/init.js:58 | definition: the `n(o)?` alternative, ignoring ASCII case |
| Names.IsYesNo | tools/init.js:58 | definition: the yes/no pattern; characterised in both directions by `Names.YesNoIff` |
| Names.AcceptsSuggestion | tools/init.js:130 | definition: the lower-cased first character of the answer is `y`; characterised on well-formed answers by `Names.AcceptsSuggestionIff` |
| Names.YesNoIff | tools/init.js:58 | in both directions: the yes/no pattern accepts exactly `y`, `yes`, `n` and `no`, in any case |
| Names.AcceptsSuggestionIff | tools/init.js:130 | on a well-formed answer the suggestion is taken exactly for `y` and `yes`, in any case |
| Flow.Ask | tools/init.js:105 | the first answer passing the pattern is taken, every earlier answer failed it, and the rest of the input follows it; the result is an error exactly when no answer passes |
| Flow.Create | tools/init.js:104-117 | the name is the first typed answer that passes the kebab-case pattern, and the prompt aborts exactly when no typed answer passes it |
| Flow.Confirm | tools/init.js:123-136 | a name from confirmation is either the suggestion or a typed kebab name |
| Flow.Resolve | tools/init.js:89-98 | the name handed to setup is the suggestion (under CI, or after confirming a non-default suggestion) or a typed kebab name |
| Flow.ResolveDispatch | tools/init.js:89-98 | with CI the suggestion is used; otherwise a non-default suggestion goes to confirmation and the default goes to the typed-name prompt |
| Flow.ResolvedNameIsPathSafe | tools/init.js:89-98 | every name that reaches setup holds only lower-case letters, digits and hyphens |
| Flow.DefaultNameIsTyped | tools/init.js:90-94 | without CI, a clone in the default directory is named only by a typed kebab name |
| Flow.ConfirmAccepts | tools/init.js:130-131 | an accepting well-formed answer takes the suggestion |
| Flow.ConfirmDeclines | tools/init.js:132-134 | a declining well-formed answer passes the remaining input to the typed-name prompt |
| Flow.ConfirmReasks | tools/init.js:58 | a malformed yes/no answer is asked again and changes nothing else |
| Flow.CreateReasks | tools/init.js:41 | an answer that fails the typed-name pattern is asked again and changes nothing else |
| Flow.CiIgnoresAnswers | tools/init.js:95-98 | under CI the result does not depend on the answers |
| Flow.CiPassesMalformedName | tools/init.js:95-98 | under CI a name the typed prompt would refuse still reaches setup |
| Manifest.Decimal | tools/init.js:269 | an index is written as an index key made only of digits |
| Manifest.DecimalExample | tools/init.js:269 | indices are written in plain decimal: 0, 7, 42 and 305 become `0`, `7`, `42` and `305` |
| Manifest.DecimalInjective | tools/init.js:269 | two indices with the same key are the same index |
| Manifest.IndexKeyed | tools/init.js:269 | an array-like value seen as an object holds element `i` under the key of `i`, for every index, and has no other key |
| Manifest.Enumerable | tools/init.js:269 | `omit` copies an object's own entries, only index keys from an array or string, and nothing from `undefined`, `null`, a boolean or a number |
| Manifest.Without | tools/init.js:269 | the keys left are the old keys that are not listed, each with its value unchanged |
| Manifest.Omit | tools/init.js:269 | the enumerable entries of the value whose keys are not listed, values unchanged |
| Manifest.Prune | tools/init.js:268-269 | pruning succeeds exactly when the manifest is an object with a non-null `scripts`, and the result always has `devDependencies` |
| Manifest.PruneScripts | tools/init.js:268 | the `postinstall` script goes, every other script is kept, and a `scripts` that is not an object is left alone |
| Manifest.PruneDevDependencies | tools/init.js:269 | `devDependencies` becomes an object holding no helper package; an object keeps exactly its other keys, with their values; an absent one becomes `{}` |
| Manifest.PruneKeepsOtherEntries | tools/init.js:268-269 | the top-level keys are the old ones plus `devDependencies`, and every entry other than `scripts` and `devDependencies` is unchanged |
| Manifest.RmDevPackagesAreNotIndexKeys | tools/init.js:26-33 | no helper package name is an index key |
| Manifest.PruneIndexesArrayLike | tools/init.js:269 | an array or string `devDependencies` becomes the object of all its elements under index keys |
| Manifest.PruneIdempotent | tools/init.js:268-269 | pruning a pruned manifest changes nothing |
| Manifest.WithoutOfPair | tools/init.js:269 | of two entries, the listed one goes and the other stays |
| Manifest.WebpackIsKept | tools/init.js:26-33 | `webpack` is not a helper package |
| Manifest.OmitExample | tools/init.js:26-33 | `colors` is dropped from a typical `devDependencies` and `webpack` is kept |
| Manifest.PruneExample | tools/init.js:268-269 | a typical template manifest loses its hook and its helper packages, and nothing else |
| Manifest.PruneNeedsScripts | tools/init.js:268 | without `scripts`, the delete statement throws |
| Setup.RemoveAll | tools/init.js:192-202 | exactly the paths that are not a listed item or inside one are kept, with their contents |
| Setup.Under | tools/init.js:198 | definition: a path is removed with an item when it is the item or lies under `item/` |
| Setup.RemoveAllIdempotent | tools/init.js:198 | removing twice is removing once |
| Setup.RmFilesInsideRmDirs | tools/init.js:14-15 | listing `tools/init.js` separately removes nothing more than `tools` does |
| Setup.Substitute | tools/init.js:216-220 | definition: the three global replacements applied one after the other in the listed order; see the three lemmas below |
| Setup.SubstituteWithoutTokens | tools/init.js:216-220 | a file without any token is left as it is |
| Setup.SubstituteOneNameToken | tools/init.js:216-220 | in a file with one name token and no other token, the name takes exactly the token's place |
| Setup.SubstituteIsSequential | tools/init.js:218-219 | the replacements run in order: a user token inside the chart name is itself replaced |
| Setup.ModifyAll | tools/init.js:211-227 | the same paths remain, and no file outside the list changes |
| Setup.ModifyAllSubstitutes | tools/init.js:211-227 | with every listed file present, each listed file gets its substitution |
| Setup.ModifyAllOrNothing | tools/init.js:215-224 | one missing listed file means no file is modified |
| Setup.ResolveRename | tools/init.js:240 | definition: the name token in a rename target replaced by the chart name; see `Setup.ResolveOneToken` and `Setup.RenameTargets` |
| Setup.ResolveOneToken | tools/init.js:240 | a target with a hyphen-free directory part and one token resolves to the name in the token's place |
| Setup.RenameTargets | tools/init.js:22-25 | for any name, the two renames resolve to `src/<name>.js` and `src/<name>.css` |
| Setup.Move | tools/init.js:241-244 | the file moves, replacing any file at the target; a missing source changes nothing; every other path is untouched |
| Setup.ApplyRenames | tools/init.js:237-246 | definition: the `forEach` over the rename pairs, each a `Setup.Move` to its resolved target, in list order; see `Setup.ApplyRenameFiles` |
| Setup.ApplyRenameFiles | tools/init.js:237-246 | the renames are the two moves, in list order |
| Setup.RenamePathsDistinct | tools/init.js:22-25 | the new paths differ from each other and from the second source |
| Setup.RenamesMoveEntryPoint | tools/init.js:237-246 | the entry file ends up under the chart's name with its content, and its old path is gone unless the name is `index` |
| Setup.RenamesKeepManifest | tools/init.js:237-246 | the renames leave the manifest's path and content alone |
| Setup.FinalizeFs | tools/init.js:264-271 | the rewrite succeeds exactly when the manifest exists, parses and prunes; only `package.json` changes, and it then holds the serialised pruned manifest |
| Setup.Staged | tools/init.js:178-182 | definition: the tree after `removeItems`, `modifyContents` and `renameItems`, in that order; see `Setup.StagedEntryPoint`, `Setup.StagedManifest`, `Setup.StagedKeepsRemoved` |
| Setup.ModifyFilesSurviveRemoval | tools/init.js:14-21 | no file to be modified lies inside a removed item |
| Setup.StagedEntryPoint | tools/init.js:178-182 | with a complete template, `src/<name>.js` holds the substituted entry point before `finalize` |
| Setup.StagedManifest | tools/init.js:178-184 | the manifest that `finalize` reads is the substituted `package.json` |
| Setup.RenamingFirstSkipsSubstitution | tools/init.js:180-182 | had the renames run before the substitution, no file would have been modified |
| Setup.SrcNotRemoved | tools/init.js:14-15 | a file in `src` is never inside a removed item |
| Setup.StagedKeepsRemoved | tools/init.js:178-182 | the later steps never bring back a removed path |
| Bootstrap.Project.RemoveItems | tools/init.js:192-202 | the tree becomes the tree with the template items removed, and the step is recorded |
| Bootstrap.Project.ModifyContents | tools/init.js:211-227 | the tree becomes the all-or-nothing substitution of the listed files, and the step is recorded |
| Bootstrap.Project.RenameItems | tools/init.js:234-249 | the loop over the rename list leaves the tree with both renames applied in order |
| Bootstrap.Project.Finalize | tools/init.js:263-271 | the manifest is rewritten exactly when the rewrite can succeed; otherwise the tree is unchanged |
| Bootstrap.Project.SetupChart | tools/init.js:167-187 | the identity is trimmed and the four steps run in order; the tree is the staged tree, finalized when that succeeds |
| Bootstrap.Project.Run | tools/init.js:75-98 | the tree, the exit status and the steps are those of the whole-run specification |
| Bootstrap.RunOutcome | tools/init.js:70-117 | definition: the whole run's tree, exit status and steps; described by the lemmas below and met by `Bootstrap.Project.Run` |
| Bootstrap.RunStatus | tools/init.js:70-117 | the exit status is 0 or 1, and 0 exactly when the output is a terminal, git is there, a name is settled and the manifest rewrite succeeds |
| Bootstrap.RunRemovesTemplateItems | tools/init.js:75-117 | every run that gets past the console clearing, failed ones included, ends with the template items gone |
| Bootstrap.RunWithoutTerminalChangesNothing | tools/init.js:70-73 | when the output is not a terminal the script throws before its first step: nothing changes and the exit status is 1 |
| Bootstrap.RunWithoutNameOnlyRemoves | tools/init.js:75-112 | a run that stops before setup, for lack of git or of a name, only removes the template items, with exit status 1 |
| Bootstrap.RunSuccess | tools/init.js:167-187 | a successful run had a terminal and git, and on a complete template leaves `src/<name>.js` holding the substituted entry point, and `package.json` holding the serialised pruned, substituted manifest |
| Bootstrap.RunCiIgnoresAnswers | tools/init.js:95-98 | under CI the whole run does not depend on what would have been typed |

## Left out

- Terminal I/O: the prompt library's line editing, colours, descriptions and messages are not modelled. The terminal is a sequence of answer lines.
- Clearing the console (lines 69-73) and every log line: none of them changes the project. Whether the output is a terminal is an input (`hasTerminal`): without one, `getWindowSize` is missing, the script throws, and the model ends the run there with status 1 and the tree unchanged.
- Running `git`, `which` and `exec`: their results are inputs to the model (`hasGit`, and the raw `git config` output).
- Recreating `.git` with `git init`, and the husky hook installer started with `fork`: both are outside processes, so the tree has no `.git` after a modelled run.
- JSON text: `JSON.parse` and `JSON.stringify(pkg, null, 2)` are parameters (`parse`, `stringify`) of `Project`. Key order, duplicate keys and indentation are not represented, and numbers are mathematical reals.
- Setup.Substitute: does not model the `$` replacement patterns of `String.prototype.replace`. A chart name, user name or e-mail address holding `$&` or `$1` is treated literally.
- Names.Suggest: the directory name is a sequence of code points, so a surrogate pair counts as one character where JavaScript sees two code units and would write two hyphens for it.
- Manifest.Enumerable: a string `devDependencies` is indexed by code point; JavaScript indexes it by UTF-16 code unit, so a character outside the Basic Multilingual Plane would give two keys there and one here.
- Names.Lower: lower-cases ASCII only. That is exact for suggestions, which hold only ASCII by then. `AcceptsSuggestion` uses it on yes/no answers, which are ASCII whenever the pattern accepts them.
- Flow.Confirm: when the yes/no prompt ends in an error, the script calls `chartNameCreate` and then reads `res.useSuggestedName` from an undefined `res`, which throws. The model keeps only the typed-name prompt, and that prompt starts with an input that is already used up.
- Setup.Move: does not model a target that is an existing directory, or a source that is a directory.
- Directories exist only as path prefixes. An empty directory is not represented.
- `path.resolve(__dirname, '..', f)`: paths are relative to the project root, because every path the script builds starts from that root.
- Setup.ModifyAll: treats the four paths literally. The replacement library reads each entry as a glob pattern, and each entry is an absolute path that includes the project directory. A directory whose path holds glob syntax, such as `chart[1]`, can therefore make the lookup find nothing. The script then catches the throw and modifies nothing, where the model substitutes all four files.
- lodash `omit` over inherited keys and symbol keys: JSON values have neither.
- `webpack.config.js`, `webpack.parts.js` and the content of `src/index.js`: they are data for the substitution and are otherwise not part of this model.

