# A verified model of the Kconfig engine and the camera subscription table

This project models two parts of the repository and proves what they promise.

**The Kconfig engine** (`scripts/kconfiglib/kconfiglib.py`) evaluates a three-valued
configuration language (n, m, y) over a graph of symbols and choices.

* `Model` has configurations, expressions and, for every attribute that the engine
  memoises, the equation that defines it. `Evaluation` solves the equations by plain
  recursion and shows that there is only one solution; `Eval(k, u)` is that solution for
  the configuration `k` and the user state `u`.
* `Engine.Kconf` is the engine itself: one method per property or function of the source,
  with memoisation, short-circuiting and pruned invalidation. `CacheTheory` has the
  invariant that makes it right: every cached value is forced by the other cached values,
  whatever the uncached ones are. `Dependencies` builds the dependents of every item.
* `Values` proves choice exclusivity and the meaning of `assignable`. `Meaning`
  characterises every value by the written properties alone, whatever the equations in
  `Model` look like.
* `ConfigFile`, `RoundTrip`, `ConfigWriter` and `SyncDeps` prove what happens when `.config`
  files are loaded, written and compared, on top of `Strings`. `LineMeaning` and
  `WriterMeaning` say what single lines mean and which lines there are, `Reconfigure` what
  happens between two versions of the Kconfig files. `ChoiceExample` has a concrete choice.
* `DepLoop` is the search for dependency loops without choices, `EvaluationOrder` the rank
  that a passed search gives to evaluation, `ChoiceLoop` the search with choices.
* `MenuTree` and `MenuHeap` are the finalisation of the menu tree, as a function on trees
  and as loops over `next`, `list` and `parent`, and the walk over the result.
  `FinalParents` tells the shape of the result from the written nodes, `AutoMenu` when a
  node depends on a symbol.
  `Propagate` is the propagation of conditions through the tree, `ChoiceMembers` the
  registration of choice symbols.
* `ExprSyntax` is the expression parser and printer, `ExprText` the tokeniser, `Macro` the
  preprocessor. `LexMeaning` and `MacroMeaning` say what lines and macro calls mean by their
  structure.

**The camera subscription table** (`apps/src/tuya_ai_toy_camera.c`): `Camera.Adapter` is
the table for calls that do not overlap, `CameraProtocol` a transition system in which any
number of threads interleave, one critical section or driver call per step, and
`CameraPromise` says exactly which interleavings keep hardware and subscriptions together,
`CameraFrames` adds the threads that dispatch frames.

Main results, hardest first:

1. *Cache coherence over whole runs* (`Engine.Run`): after any sequence of assignments,
   removals and reads, every cached value is what uncached recursive evaluation gives.
2. *Round trips of configuration files* (`RoundTrip.MinConfigRoundTrip`,
   `RoundTrip.FullConfigRoundTrip`, and over the caching engine
   `ConfigWriter.SaveAndReload`): loading a written file over any earlier state gives every
   value and every mode back, if and only if no symbol and no mode is of a kind that the file
   cannot express; for symbols of all types and all choices. Without tristates, and with
   bool, non-optional choices, nothing is lost (`RoundTrip.NothingLost`);
   `RoundTrip.LossyExists`, `RoundTrip.MinLossyExists` and `ChoiceExample.ModeLostExists`
   show what can be otherwise.
3. *Loop detection is exact* without choices (`DepLoop.CheckAll`) and makes evaluation well
   founded (`EvaluationOrder.Initialise`). With choices what it raises is genuine and loops
   between symbols alone are found (`ChoiceLoop.RaisedIsGenuine`,
   `ChoiceLoop.DependencyLoopRaises`), but loops through a choice can be missed.
4. *Tree finalisation keeps definition order* (`MenuHeap.Menu.FinalizeTop`), with the
   pointer surgery proved against the function on trees, the shape of the result told from
   the written nodes (`FinalParents.ParentsArePlaced`), and the stackless walk.
5. *Propagation preserves meaning* (`Propagate.FinalizedMeans`, `Propagate.CollectedRight`).
6. *The parser accepts exactly its grammar* (`ExprSyntax.ParsesExpr`,
   `ExprSyntax.ExprIsSentence`), and printing followed by tokenising and parsing keeps the
   meaning and the text (`ExprSyntax.PrintParse`, `ExprText.TextRoundTrip`).
7. *Macro expansion* terminates, restores its counters, and rewriting a string in place
   while scanning it agrees with a one-pass definition (`Macro.Preprocessor.ExpandMacro`),
   which takes calls apart into exactly their arguments (`MacroMeaning.CallExactly`).
8. *Reference counts in every interleaving* (`CameraProtocol.CountAgreesAlways`), with the
   exact condition for any interleaving (`CameraProtocol.CountAgreesExactly`), the hardware
   that follows it (`CameraProtocol.NeverBlind`) and exactly when (`CameraPromise.PromisedExactly`),
   and the dispatch of frames meanwhile (`CameraFrames.DispatchExact`).

Where the code and its documentation differ, the model follows the code. These places are
stated as theorems, with an input and, but for the last, the exact condition:

- `assignable` is documented to list the values that can be assigned, but lists m for a
  symbol with visibility m that is selected to m and implied to y (`Values.AssignableExact`,
  `Values.AssignableFails`).
- `sync_deps` touches a hex symbol for a mere change of spelling (`SyncDeps.SyncSound`,
  `SyncDeps.HexRespelling`), and raises an exception once a key symbol has been written
  (`SyncDeps.Rebuild`, `SyncDeps.KeyRaises`).
- `sync_deps` does not touch the file of a symbol that was removed while some expression
  still mentions it, although its header line is gone (`Reconfigure.ExactUnlessMentioned`,
  `Reconfigure.MentionedIsMissed`).
- FOO != y puts a node into the implicit menu of FOO, although only FOO = y, FOO = m and
  FOO != n are meant to (`AutoMenu.DependsExactly`, `AutoMenu.NotYIsOn`).
- A replacing load keeps the user selection of a choice to which the file assigns only m
  (`ConfigFile.SelectionForgottenExactly`, `ChoiceExample.LoadRemembers`).
- The check for dependency loops passes a choice in which one symbol depends on another one
  and no values are consistent (`ChoiceLoop.MissedPasses`, `ChoiceLoop.MissedHasNoValues`).

## Model

| member | source | states |
|---|---|---|
| `Evaluation.RecursiveSolves` | scripts/kconfiglib/kconfiglib.py:4307-4543 | Recursive evaluation without caches, along any rank, satisfies the equation of every attribute. |
| `Evaluation.SolutionUnique` | scripts/kconfiglib/kconfiglib.py:4307-4543 | Two assignments of values that satisfy all equations agree everywhere, so a value does not depend on the order of evaluation. |
| `Evaluation.EvalIsRecursive` | scripts/kconfiglib/kconfiglib.py:4307-4543 | The unique solution used in all theorems is what recursive evaluation computes. |
| `Evaluation.EvalSolves` | scripts/kconfiglib/kconfiglib.py:4307-4543 | For a ranked configuration and a valid user state the solution exists. |
| `Evaluation.StepCongruent` | scripts/kconfiglib/kconfiglib.py:4307-4543 | An attribute depends on nothing but the attributes its equation reads, its own user value and the user modes of the choices read. |
| `Evaluation.StepMatters` | scripts/kconfiglib/kconfiglib.py:6314-6341 | For a symbol that can never be visible even less matters: not the mode of its choice, nor the selection. |
| `Dependencies.ReadsAreDeps` | scripts/kconfiglib/kconfiglib.py:3486-3559 | Whatever matters for a value belongs to the same item or to one it is registered as a dependent of; MODULES is the only exception. A choice symbol whose prompts have come down to n needs no edge from its choice, since nothing but its constant visibility matters. |
| `Dependencies.DependOn` | scripts/kconfiglib/kconfiglib.py:6344-6360 | Registers an item with exactly the non-constant symbols and choices of an expression. |
| `Dependencies.BuildDep` | scripts/kconfiglib/kconfiglib.py:3486-3545 | After it the dependents are exactly the edges from every property of every symbol and choice, and no others. |
| `Dependencies.SymbolDepends` | scripts/kconfiglib/kconfiglib.py:3499-3528 | A symbol depends on exactly what its prompt conditions, defaults and ranges with their conditions, reverse, weak reverse and direct dependencies mention. |
| `Dependencies.ChoiceDepends` | scripts/kconfiglib/kconfiglib.py:3535-3545 | A choice depends on exactly what its prompt conditions and the conditions of its defaults mention, and not on the default symbols. |
| `Dependencies.AddChoiceDeps` | scripts/kconfiglib/kconfiglib.py:3547-3559 | Adds exactly the edges from choice symbols back to their choice. |
| `CacheTheory.Coherent` | scripts/kconfiglib/kconfiglib.py:4890-4919 | Under the cache invariant every cached value equals the uncached recursive value, by induction on rank. |
| `CacheTheory.Add` | scripts/kconfiglib/kconfiglib.py:4311-4316 | Storing a value that the cached values force keeps the invariant and every earlier entry. |
| `CacheTheory.ClosedKeeps` | scripts/kconfiglib/kconfiglib.py:4890-4919 | An invalidation after which no emptied item has a dependent with a cached visibility keeps the invariant. |
| `CacheTheory.ChangeAfterInvalidation` | scripts/kconfiglib/kconfiglib.py:4656-4668 | After the invalidation of an item its user data may change without any cached value becoming wrong. |
| `CacheTheory.ChangeOfPromptless` | scripts/kconfiglib/kconfiglib.py:4921-4941 | The user value of a symbol without prompts may change without any invalidation. |
| `Engine.Kconf.constructor` | scripts/kconfiglib/kconfiglib.py:1117-1124 | A new engine has no user values and a valid empty cache. |
| `Engine.Kconf.SymVisibility` | scripts/kconfiglib/kconfiglib.py:6314-6341 | The computed visibility of a symbol is forced by what is cached afterwards. |
| `Engine.Kconf.HiddenByChoice` | scripts/kconfiglib/kconfiglib.py:6326-6334 | The two tests for choice symbols, which look at the mode of the choice only behind the type tests. |
| `Engine.Kconf.ExprValue` | scripts/kconfiglib/kconfiglib.py:6013-6070 | Short-circuit evaluation gives the value of the expression in every world that agrees with the cache. |
| `Engine.Kconf.RelValue` | scripts/kconfiglib/kconfiglib.py:6040-6070 | Relations compare numbers where both sides are numbers, text otherwise. |
| `Engine.Kconf.SymNumValue` | scripts/kconfiglib/kconfiglib.py:6395-6403 | The number of a symbol in a comparison, or none where ValueError is raised. |
| `Engine.Kconf.ModeValue` | scripts/kconfiglib/kconfiglib.py:5215-5232 | The mode of a choice: user mode, limited by visibility, with m promoted for bool choices. |
| `Engine.Kconf.ChoiceTypeValue` | scripts/kconfiglib/kconfiglib.py:5199-5205 | A tristate choice is bool while MODULES is n. |
| `Engine.Kconf.TypeValue` | scripts/kconfiglib/kconfiglib.py:4294-4304 | A tristate symbol is bool in a y-mode choice or while MODULES is n. |
| `Engine.Kconf.PlainTriValue` | scripts/kconfiglib/kconfiglib.py:4473-4512 | The value and the write flag of a symbol outside choices, from user value, defaults, implies and selects. |
| `Engine.Kconf.ChoiceSymTriValue` | scripts/kconfiglib/kconfiglib.py:4514-4522 | The value and the write flag of a choice symbol. |
| `Engine.Kconf.NumberValue` | scripts/kconfiglib/kconfiglib.py:4333-4413 | The number of an int or hex symbol is forced by what is cached afterwards; which text it is, is what `Meaning.DefaultInRange`, `Meaning.DefaultUnlimited` and `Meaning.UserNumberKept` say. |
| `Engine.Kconf.TextValue` | scripts/kconfiglib/kconfiglib.py:4424-4434 | The text of a string or key symbol. |
| `Engine.Kconf.FindStrValue` | scripts/kconfiglib/kconfiglib.py:4307-4445 | The string value of any symbol; a visibility is cached with it unless it is constant. |
| `Engine.Kconf.FindSelection` | scripts/kconfiglib/kconfiglib.py:5449-5463 | The selection of a choice is forced by what is cached afterwards. |
| `Engine.Kconf.FindAssignable` | scripts/kconfiglib/kconfiglib.py:4838-4882 | The assignable values of a symbol, forced by the cache. |
| `Engine.Kconf.FindChoiceAssignable` | scripts/kconfiglib/kconfiglib.py:5430-5447 | The assignable modes of a choice, forced by the cache. |
| `Engine.Kconf.Visibility` | scripts/kconfiglib/kconfiglib.py:4537-4543 | Equals uncached recursive evaluation in the current user state; only adds cache entries. |
| `Engine.Kconf.TriValue` | scripts/kconfiglib/kconfiglib.py:4448-4525 | Equals uncached recursive evaluation; only adds cache entries. |
| `Engine.Kconf.StrValue` | scripts/kconfiglib/kconfiglib.py:4307-4445 | Equals uncached recursive evaluation, whose texts the lemmas of `Meaning` characterise; only adds cache entries. |
| `Engine.Kconf.Assignable` | scripts/kconfiglib/kconfiglib.py:4528-4534 | The assignable values over uncached recursive values. |
| `Engine.Kconf.ChoiceVisibility` | scripts/kconfiglib/kconfiglib.py:5244-5250 | Equals uncached recursive evaluation. |
| `Engine.Kconf.Selection` | scripts/kconfiglib/kconfiglib.py:5261-5267 | Equals uncached recursive evaluation. |
| `Engine.Kconf.ChoiceAssignable` | scripts/kconfiglib/kconfiglib.py:5235-5241 | The assignable modes over uncached recursive values. |
| `Engine.Kconf.ChoiceMode` | scripts/kconfiglib/kconfiglib.py:5215-5232 | The mode over uncached recursive values. |
| `Engine.Kconf.SelectionByDefault` | scripts/kconfiglib/kconfiglib.py:5465-5478 | The default selection over uncached recursive values. |
| `Engine.Kconf.Invalidate` | scripts/kconfiglib/kconfiglib.py:4884-4888 | Afterwards the item has no entry, and no other entry is lost or changed. |
| `Engine.Kconf.InvalidateAll` | scripts/kconfiglib/kconfiglib.py:3561-3569 | Afterwards no defined symbol or choice has an entry, and no other entry is lost or changed. |
| `Engine.Kconf.RecInvalidate` | scripts/kconfiglib/kconfiglib.py:4890-4919 | Terminates on cyclic dependents (the items with a cached visibility become fewer at each call) and is complete: no item that lost its entries has a dependent with a cached visibility. |
| `Engine.Kconf.RecInvalidateIfHasPrompt` | scripts/kconfiglib/kconfiglib.py:4921-4941 | The same for symbols with a prompt; otherwise nothing changes. |
| `Engine.Kconf.SetValue` | scripts/kconfiglib/kconfiglib.py:4622-4670 | Accepts exactly the values valid for the type (`Meaning.SetTakes`), changes exactly this user value (and selection and marks), and keeps every remaining cached value right. |
| `Engine.Kconf.UnsetValue` | scripts/kconfiglib/kconfiglib.py:4672-4679 | Removes exactly this user value and keeps the cache right. |
| `Engine.Kconf.SetMode` | scripts/kconfiglib/kconfiglib.py:5282-5308 | The same for the mode of a choice. |
| `Engine.Kconf.UnsetMode` | scripts/kconfiglib/kconfiglib.py:5310-5317 | Removes the mode and the selection of a choice and keeps the cache right. |
| `Engine.SymChange` | scripts/kconfiglib/kconfiglib.py:4656-4668 | A user value may change after the invalidation that goes with it, or without one if there is no prompt. |
| `Engine.ChoiceSymChange` | scripts/kconfiglib/kconfiglib.py:4659-4666 | Selecting a choice symbol needs the invalidation of the choice only, although the symbol changes too; also for a symbol that does not depend on its choice, because it can never be visible. |
| `Engine.Run` | scripts/kconfiglib/kconfiglib.py:4884-4941 | After any sequence of set, unset and reads on symbols and choices, the user state is the one the sequence spells out and every cached attribute equals uncached recursive evaluation. |
| `Meaning.DefaultInRange` | scripts/kconfiglib/kconfiglib.py:4335-4413 | For an int or hex symbol whose user value, if any, is not in the active range low..high, with numerals that read back what they print: a default in the range keeps its text; otherwise the value is the number of the range nearest to the default (0 without one), printed in the form of the type; in an empty range it is low for numbers below low and high for the others. |
| `Meaning.DefaultUnlimited` | scripts/kconfiglib/kconfiglib.py:4376-4391 | Without an active range the first active default is taken as it is. |
| `Meaning.UserNumberKept` | scripts/kconfiglib/kconfiglib.py:4356-4374 | A user number of a visible symbol that no active range excludes keeps its spelling. |
| `Meaning.StringValueIs` | scripts/kconfiglib/kconfiglib.py:4419-4434 | A string or key has the user value if it is visible and has one, else the text of its first active default. |
| `Meaning.LevelText` | scripts/kconfiglib/kconfiglib.py:4314-4326 | Levels read n, m and y, and undefined symbols have their name as their value. |
| `Meaning.WrittenExactly` | scripts/kconfiglib/kconfiglib.py:4436-4442 | Exactly the symbols that are visible or not n (bool, tristate), or visible or with an active default (other types), go into .config, but for those from the environment. |
| `Meaning.PlainLevel` | scripts/kconfiglib/kconfiglib.py:4473-4512 | The value outside choices reaches a level if and only if a select does, or the user value and the visibility do, or without a user value in use an imply with its direct dependency or the first active default and its condition do; m becomes y where the type has no m or the symbol is implied to y. |
| `Meaning.ChoiceLevel` | scripts/kconfiglib/kconfiglib.py:4514-4522 | A choice symbol is y if and only if its visibility is y and it is the selection, and m if and only if its visibility is m and the user gave it m or y. |
| `Meaning.VisibilityIs` | scripts/kconfiglib/kconfiglib.py:6314-6341 | When a symbol is visible and when its visibility is m, in terms of the levels its prompts reach, the mode of its choice and MODULES. |
| `Meaning.ModeIs` | scripts/kconfiglib/kconfiglib.py:5214-5232 | When the mode of a choice is not n and when it is y, in terms of its prompts, its user mode, `optional`, its type and MODULES. |
| `Meaning.NothingIsM` | scripts/kconfiglib/kconfiglib.py:4298-4302 | While MODULES is n or undefined no visibility, no value and no mode is m. |
| `Meaning.SelectionIs` | scripts/kconfiglib/kconfiglib.py:5449-5478 | The selection in y mode is the user's symbol if it is visible, else that of the first default with its condition on and its symbol visible, else the first visible symbol. |
| `Meaning.ChoiceAssignableExact` | scripts/kconfiglib/kconfiglib.py:5430-5447 | For every visible bool or tristate choice `assignable` lists exactly the modes that setting the choice can lead to, over uncached recursive values before and after. |
| `Meaning.AssignableForm` | scripts/kconfiglib/kconfiglib.py:4838-4882 | The assignable values of a symbol are ascending, empty exactly for invisible symbols and other types, and y alone or n and m for choice symbols. |
| `Meaning.ConnectivesMean` | scripts/kconfiglib/kconfiglib.py:6013-6038 | And reaches a level where both sides do, or where one side does, and not turns the levels over. |
| `Meaning.StrCmpIs` | scripts/kconfiglib/kconfiglib.py:6389-6392 | The text comparison is the order of a dictionary: by the first differing character, prefixes first. |
| `Meaning.RelationMeans` | scripts/kconfiglib/kconfiglib.py:6040-6070 | Each of the six relations is y or n and means the order of numbers, or of texts for two strings, two keys and whenever one side is no number. |
| `Meaning.SetTakes` | scripts/kconfiglib/kconfiglib.py:4622-4670 | Which values each type accepts, n/m/y as text included, and that nothing but this user value, and for y the selection of its choice, changes. |
| `Meaning.ModeTakes` | scripts/kconfiglib/kconfiglib.py:5282-5307 | A tristate choice takes every mode, a bool choice n and y. |
| `Values.ChoiceExclusive` | scripts/kconfiglib/kconfiglib.py:5449-5478 | In every user state: in y mode exactly one symbol is y, and it is the selection, if any is visible; in m mode none is y; in n mode all are n. |
| `Values.ChoiceSymVisibility` | scripts/kconfiglib/kconfiglib.py:6326-6339 | A choice symbol is never more visible than the mode, and never m in y mode. |
| `Values.ValueAfterSet` | scripts/kconfiglib/kconfiglib.py:4473-4512 | The value that an assignment leads to, in terms of the values before it. |
| `Values.AssignableExact` | scripts/kconfiglib/kconfiglib.py:4838-4882 | For every visible bool or tristate symbol outside choices: assignable lists exactly the reachable values if and only if it is not visibility m, selected m, implied y. |
| `Values.AssignableFails` | scripts/kconfiglib/kconfiglib.py:4882 | A configuration in which assignable says m and every assignment gives y. |
| `Strings.EscapeIsMap` | scripts/kconfiglib/kconfiglib.py:6204-6211 | Escaping in two passes escapes each character on its own. |
| `Strings.ConfStringRoundTrip` | scripts/kconfiglib/kconfiglib.py:6204-6222 | The .config matcher recovers exactly the escaped text from its quoted form, and unescaping gives the original, for every string. |
| `Strings.KeyRoundTrip` | scripts/kconfiglib/kconfiglib.py:7198-7200 | Words of letters, digits and underscores pass the key matcher and unescaping unchanged. |
| `ConfigFile.LoadLine` | scripts/kconfiglib/kconfiglib.py:1269-1365 | The user state and the marks after one line of a configuration file; `LineMeaning.LineMeans` says which they are. |
| `ConfigFile.LoadConfig` | scripts/kconfiglib/kconfiglib.py:1247-1377 | With replace, the user state is what the file says and nothing else (but for selections of choices that only get m); without, the file's assignments on top of the earlier state. `LineMeaning.FileMeans` says what that is, line by line. |
| `LineMeaning.LineMeans` | scripts/kconfiglib/kconfiglib.py:1269-1365 | For every line: a bool or tristate symbol gets a level if and only if the line says it is not set (n) or its text starts with the letter of a level of the type; a string the text that a well-formed literal at the start of the line stands for; a key the longest word there; a number the text without blanks at its end if it is one of the type. m or y for a choice symbol is also the mode, y also the selection. Every other line changes nothing. |
| `LineMeaning.LiteralIs` | scripts/kconfiglib/kconfiglib.py:7196 | The matcher finds exactly the literal, character by character as itself or after a backslash, that a text starts with, and unescaping gives the characters. |
| `LineMeaning.FileMeans` | scripts/kconfiglib/kconfiglib.py:1247-1377 | After a replacing load a symbol has a user value if and only if some line says one, and then what the last such line says; likewise the mode of a choice, and its selection unless the file gives it a mode but no selection. |
| `ConfigFile.LoadForgets` | scripts/kconfiglib/kconfiglib.py:1367-1377 | Two replacing loads of one file agree on all user values and modes, and on the selection of every choice to which the file does not assign m only, whatever was set before. |
| `ConfigFile.SelectionForgottenExactly` | scripts/kconfiglib/kconfiglib.py:1367-1377 | Over all valid earlier states, a replacing load leads to one user selection of a choice if and only if the file does not assign only m to the choice. |
| `ChoiceExample.LoadRemembers` | scripts/kconfiglib/kconfiglib.py:1375-1377 | One file that assigns only m to a tristate choice, loaded with replace over two states in which different symbols were selected: the user values and modes are the same, and once the choice is set to y mode a symbol is y after the one history and n after the other. |
| `ChoiceExample.HistoryMatters` | scripts/kconfiglib/kconfiglib.py:1375-1377 | The same two histories through the caching engine. |
| `ChoiceExample.ConfigOk` | scripts/kconfiglib/kconfiglib.py:3657-3679 | The assumptions about configurations hold together for a tristate choice with two usable symbols and one with `depends on n`, which does not depend on its choice. |
| `ConfigWriter.WriteConfig` | scripts/kconfiglib/kconfiglib.py:1598-1671 | Along the walk over the menu tree: apart from comments and blank lines, the file has the lines of all symbols for their uncached recursive values, each symbol once. |
| `ConfigWriter.CommentsIgnored` | scripts/kconfiglib/kconfiglib.py:1336-1347 | Comments and blank lines make no difference to a load. |
| `ConfigWriter.ConfigString` | scripts/kconfiglib/kconfiglib.py:4546-4573 | The line of one symbol for its uncached recursive value. |
| `ConfigWriter.WriteMinConfig` | scripts/kconfiglib/kconfiglib.py:1710-1745 | Writes the minimal file of the values of the current user state. |
| `ConfigWriter.MinKeepsOf` | scripts/kconfiglib/kconfiglib.py:1720-1743 | Whether the minimal file has a line for a symbol, over uncached recursive values. |
| `ConfigWriter.StrDefaultOf` | scripts/kconfiglib/kconfiglib.py:4943-4976 | The default that a value is compared with, over uncached recursive values. |
| `WriterMeaning.LineForm` | scripts/kconfiglib/kconfiglib.py:4546-4573 | The form of every line: n as not set, m and y as letters, strings quoted with exactly quotes and backslashes escaped, other values as they are. |
| `WriterMeaning.MinimalLevel` | scripts/kconfiglib/kconfiglib.py:1720-1735 | A bool or tristate symbol outside choices is in the minimal file if and only if its visibility exceeds what it is selected to and unsetting it would change its value, over uncached recursive values before and after. |
| `WriterMeaning.MinimalText` | scripts/kconfiglib/kconfiglib.py:1720-1735 | A symbol of another type is in it if and only if it may change and its value is not the text of its first active default before any range. |
| `WriterMeaning.MinimalMember` | scripts/kconfiglib/kconfiglib.py:1737-1743 | A choice symbol is in it if and only if it is not n and not a bool symbol that the defaults of a non-optional choice make y. |
| `WriterMeaning.HeaderForm` | scripts/kconfiglib/kconfiglib.py:1488-1516 | The autoconf.h line of levels and numbers, and which symbols have one. |
| `WriterMeaning.HeaderOfText` | scripts/kconfiglib/kconfiglib.py:1500-1506 | Strings and keys are escaped in autoconf.h, strings also quoted. |
| `RoundTrip.LineReadsBack` | scripts/kconfiglib/kconfiglib.py:4546-4573 | The line of a symbol is read back as an assignment of its value to it. |
| `RoundTrip.FullConfigRoundTrip` | scripts/kconfiglib/kconfiglib.py:1598-1671 | For symbols of all types and for all choices: loading a written full file with replace over any earlier state reproduces every value (clamped numbers and selections too) and every mode if and only if no symbol is lossy and no choice mode is lost; both conditions can be checked before writing. |
| `RoundTrip.LossyExists` | scripts/kconfiglib/kconfiglib.py:4476-4478 | A tristate with a prompt `if m` and default y does not survive the full file. |
| `RoundTrip.MinConfigRoundTrip` | scripts/kconfiglib/kconfiglib.py:1710-1745 | The same for minimal files, with the one kind of symbol that they lose: visibility m, selected to m, default y, held at m by the user. |
| `RoundTrip.NothingLost` | scripts/kconfiglib/kconfiglib.py:1710-1745 | Without tristate symbols no symbol is lost in either file, and with bool, non-optional choices no mode is. |
| `RoundTrip.MinLossyExists` | scripts/kconfiglib/kconfiglib.py:1724-1726 | A configuration and a user state that the minimal file does not preserve. |
| `ChoiceExample.ModeLostExists` | scripts/kconfiglib/kconfiglib.py:1297-1311 | The m mode of an optional choice none of whose symbols is m is not in the full file. |
| `RoundTrip.ModeKept` | scripts/kconfiglib/kconfiglib.py:1297-1311 | A load brings the mode of a choice back if and only if the file sets some symbol of it or the mode is the one without the user. |
| `ConfigWriter.SaveAndReload` | scripts/kconfiglib/kconfiglib.py:1518-1745 | End to end over the caching engine: a file written from one engine and loaded into another with any user state and caches gives the same values and modes if and only if nothing is lost. |
| `SyncDeps.LoadOldVals` | scripts/kconfiglib/kconfiglib.py:1856-1902 | Raises an exception if and only if some line is for a key symbol. The touched names are exactly those that some line assigns, no symbol has and no expression mentions; before an exception, those of the lines before the first key line. |
| `SyncDeps.Sync` | scripts/kconfiglib/kconfiglib.py:1809-1854 | Without an exception the touched names are exactly those that some line of the old file assigns, no symbol has and no expression mentions, and the symbols whose value differs from the old file; the new auto.conf is that of the current values. With one, the file stays and only names of the first kind in the lines before it are touched. |
| `SyncDeps.OldValIs` | scripts/kconfiglib/kconfiglib.py:1918-1925 | The old value read from auto.conf is the written value of the last run. |
| `SyncDeps.SyncSound` | scripts/kconfiglib/kconfiglib.py:1815-1847 | Bool, tristate, int and string symbols are touched if and only if their autoconf header line changed. For a hex symbol that equivalence holds if and only if it was not merely respelled. No symbol whose written value is the same is touched. |
| `SyncDeps.SecondRunTouchesNothing` | scripts/kconfiglib/kconfiglib.py:1809-1854 | A second run without a change touches nothing. |
| `SyncDeps.Rebuild` | scripts/kconfiglib/kconfiglib.py:1747-1854 | End to end: after a run and any sequence of changes, a second run raises an exception if and only if the first one wrote a key symbol; otherwise exactly the bool, tristate, int and string symbols whose header line differs, and the hex symbols whose line differs or that were respelled, are touched. |
| `Reconfigure.OldValueIs` | scripts/kconfiglib/kconfiglib.py:1879-1897 | The old value of a symbol is what the last line that gives it one gives it: for strings a literal's text, else the text as it is. |
| `Reconfigure.RebuildAcross` | scripts/kconfiglib/kconfiglib.py:1747-1925 | End to end over two versions of the Kconfig files: of the names whose symbols are bool, tristate, int or string in the versions that have them, and of one type in both, the second run touches exactly those whose header line changed, appeared or vanished, except removed ones that some expression still mentions. |
| `Reconfigure.ExactUnlessMentioned` | scripts/kconfiglib/kconfiglib.py:1884-1902 | For such a name: touched if and only if its header line differs, if and only if it is not one that had a line, lost its symbol and is still mentioned. |
| `Reconfigure.MentionedIsMissed` | scripts/kconfiglib/kconfiglib.py:1884-1902 | A bool symbol with default y is removed while an expression mentions it: its header line is gone and its file is not touched. |
| `SyncDeps.HexRespelling` | scripts/kconfiglib/kconfiglib.py:1508-1514 | One hex symbol set to 10 before one run and to 0x10 before the next keeps its header line and is touched. |
| `SyncDeps.KeyRaises` | scripts/kconfiglib/kconfiglib.py:1892-1896 | One key symbol that nobody has set: the auto.conf of the first run has the line at which every later run raises the exception. |
| `DepLoop.RankedHasNoLoop` | scripts/kconfiglib/kconfiglib.py:6587-6658 | A graph with a rank has no dependency loop. |
| `DepLoop.Search.Check` | scripts/kconfiglib/kconfiglib.py:6587-6658 | One visit of the three-colour search: finished symbols come after their dependents, an unfinished loop is a path in the graph, a raised tuple is a loop. |
| `DepLoop.Search.Found` | scripts/kconfiglib/kconfiglib.py:6696-6704 | The loop is extended until it closes, then raised. |
| `DepLoop.CheckAll` | scripts/kconfiglib/kconfiglib.py:1117-1120 | Over all symbols: raises if and only if the graph has a cycle, with a genuine cycle; a pass gives a rank. |
| `EvaluationOrder.PassGivesRank` | scripts/kconfiglib/kconfiglib.py:1117-1120 | On choice-free configurations a rank of the graph makes the evaluation of all attributes well founded. |
| `EvaluationOrder.Initialise` | scripts/kconfiglib/kconfiglib.py:1108-1124 | For a choice-free configuration: collects the dependents, checks for loops and yields either a genuine circle of dependencies or a working engine; it raises if and only if there is a circle. |
| `ChoiceLoop.RaisedIsGenuine` | scripts/kconfiglib/kconfiglib.py:6587-6694 | With choices, whatever the check over all symbols raises is a loop of different items, each depending on the next, and more than a symbol and its own choice. |
| `ChoiceLoop.DependencyLoopRaises` | scripts/kconfiglib/kconfiglib.py:6587-6694 | Whatever choices there are, a loop of dependencies between symbols makes the check raise. |
| `ChoiceLoop.MissedGraphIs` | scripts/kconfiglib/kconfiglib.py:3486-3545 | The graph of the example below is the one of its configuration. |
| `ChoiceLoop.MissedPasses` | scripts/kconfiglib/kconfiglib.py:6661-6694 | A choice of three symbols in which the second depends on the third passes the check. |
| `ChoiceLoop.MissedHasNoValues` | scripts/kconfiglib/kconfiglib.py:5449-5478 | Its equations have no solution: no values are consistent. |
| `ChoiceLoop.MissedHasNoRank` | scripts/kconfiglib/kconfiglib.py:1117-1120 | So a pass gives no rank for evaluation when there are choices. |
| `MenuTree.FinalizeOrder` | scripts/kconfiglib/kconfiglib.py:3576-3655 | Finalising one node keeps the definition order of everything but `if` nodes, which vanish from its children. |
| `MenuTree.FlattenOrder` | scripts/kconfiglib/kconfiglib.py:6504-6530 | Flattening keeps definition order. |
| `MenuTree.RemoveIfsOrder` | scripts/kconfiglib/kconfiglib.py:6533-6556 | Removing flattened `if` nodes removes nothing else. |
| `MenuTree.DefinitionOrderKept` | scripts/kconfiglib/kconfiglib.py:3576-3655 | After finalisation the preorder of the tree is the parsed nodes in definition order minus the `if` nodes, whatever implicit menus were made. |
| `MenuHeap.Menu.SpliceChildren` | scripts/kconfiglib/kconfiglib.py:6516-6528 | The pointer changes put the children of a node after it, with its parent as theirs, and touch nothing else. |
| `MenuHeap.Menu.FlattenList` | scripts/kconfiglib/kconfiglib.py:6504-6530 | The loop turns the linked siblings into the flattened list, with right parents; what flattening does to the parents is `FinalParents.FlattenPassed`. |
| `MenuHeap.Menu.RemoveIfNodes` | scripts/kconfiglib/kconfiglib.py:6533-6556 | The loop unlinks exactly the `if` nodes. |
| `MenuHeap.Menu.TiltUp` | scripts/kconfiglib/kconfiglib.py:3615-3620 | The siblings found become the children of the symbol, those after them its siblings. |
| `MenuHeap.Menu.MakeImplicitMenu` | scripts/kconfiglib/kconfiglib.py:3605-3620 | The loop takes exactly the following siblings that depend on the symbol, finalised. |
| `MenuHeap.Menu.FinalizeChildren` | scripts/kconfiglib/kconfiglib.py:3634-3638 | The loop finalises every child although the list shrinks under it. |
| `MenuHeap.Menu.FinalizeNode` | scripts/kconfiglib/kconfiglib.py:3576-3644 | The links become the finalised tree, each parent link names the node whose list holds the child, and no other link changes. |
| `MenuHeap.Menu.FinalizeTop` | scripts/kconfiglib/kconfiglib.py:1098 | After finalisation from the top node, which has a prompt, the walk yields exactly the parsed nodes in definition order minus the `if` nodes, each once. The `parent` of each is the one that the written nodes and their dependencies give it (`FinalParents.Placed`), and only choices and nodes with a prompt have children. |
| `FinalParents.FlattenPassed` | scripts/kconfiglib/kconfiglib.py:6504-6530 | Flattening hands the children of promptless nodes other than choices to the nearest ancestor of the other kind, and moves nothing else. |
| `FinalParents.FinalizePlaced` | scripts/kconfiglib/kconfiglib.py:3576-3644 | What finalising one node, with the siblings in its implicit menu, leaves is what one pass over the written nodes with a stack of open implicit menus says. |
| `FinalParents.ParentsArePlaced` | scripts/kconfiglib/kconfiglib.py:3576-3644 | The shape of the final tree: an implicit menu holds the longest run of following siblings that depend on its symbol, with what is in their own menus; the parent of each node is the symbol of its innermost menu, or the node it was written in, or if that has no prompt and is no choice, the nearest such ancestor of that; no other node has children. |
| `AutoMenu.DependsExactly` | scripts/kconfiglib/kconfiglib.py:6467-6500 | A condition counts as depending on a symbol if and only if it has a conjunct of the documented kind, or one that says that the symbol is not y. |
| `AutoMenu.DependentIsOff` | scripts/kconfiglib/kconfiglib.py:6475-6480 | A condition with a conjunct of the documented kind is n whenever the symbol is, in every state. |
| `AutoMenu.NotYIsOn` | scripts/kconfiglib/kconfiglib.py:6486-6488 | FOO != y counts as depending on FOO and is y while FOO is n. |
| `MenuHeap.Menu.Advance` | scripts/kconfiglib/kconfiglib.py:1956-1969 | One jump of the stackless walk goes to the next node in preorder, or finds that there is none. |
| `MenuHeap.Menu.NodeIter` | scripts/kconfiglib/kconfiglib.py:1950-1976 | The walk terminates and yields the preorder; with unique_syms only the first node of each symbol. |
| `MenuHeap.FirstsAre` | scripts/kconfiglib/kconfiglib.py:1971-1976 | With unique_syms a node is yielded if and only if it is not a symbol's or no earlier node is the same symbol's. |
| `Propagate.SimplificationKeepsValues` | scripts/kconfiglib/kconfiglib.py:2883-2909 | The simplifications when conditions are joined by and/or never change a value, in any state. |
| `Propagate.Finalizer.PropagateDeps` | scripts/kconfiglib/kconfiglib.py:3657-3707 | One level: every child gets its new conditions, no other node changes. |
| `Propagate.Finalizer.AddPropsToSym` | scripts/kconfiglib/kconfiglib.py:3709-3740 | The properties of a node go to its symbol, selects and implies to their targets. |
| `Propagate.Finalizer.FinalizeOne` | scripts/kconfiglib/kconfiglib.py:3601-3653 | All levels below a node are pushed down; symbols collect their final properties in definition order, choices theirs after the nodes below them. |
| `Propagate.FinalizedMeans` | scripts/kconfiglib/kconfiglib.py:3657-3707 | For every tree and in every state each finalised condition is the least of the written one, the node's own dependency and the dependencies around it (a choice contributes its mode instead); prompts of symbols and choices also take every enclosing `visible if`. |
| `Propagate.CollectedRight` | scripts/kconfiglib/kconfiglib.py:3721-3740 | The reverse dependency is the largest over all selects of the smaller of selector and condition, likewise for implies; the direct dependency is the largest over the nodes; defaults, ranges, selects and implies are those of the nodes in definition order. |
| `Propagate.ChoiceGuards` | scripts/kconfiglib/kconfiglib.py:3660-3668 | Every prompt and dependency inside a choice has the choice's mode as a conjunct or has come down to n. |
| `Propagate.FinalisationGivesChoiceEdges` | scripts/kconfiglib/kconfiglib.py:3657-3679 | Finalisation makes every choice symbol a dependent of its choice, except those that can never be visible, if choice symbols have prompts only inside their choice: what cache coherence relies on. |
| `Propagate.ChoicesRight` | scripts/kconfiglib/kconfiglib.py:3649-3653 | The direct dependency of a choice is the largest of the dependencies of its nodes; its defaults are those of its nodes. |
| `ChoiceMembers.Members.FinalizeChoice` | scripts/kconfiglib/kconfiglib.py:6559-6584 | The symbols in the final list of a choice become its members; a choice without a type takes that of the first member that has one, and only members without a type get the choice's. |
| `ChoiceMembers.MembersAre` | scripts/kconfiglib/kconfiglib.py:6566-6571 | A symbol becomes a member if and only if a node of the list itself is the symbol's. |
| `Propagate.PromptsEntailDirectDep` | scripts/kconfiglib/kconfiglib.py:3673-3679 | A prompt is on only when the symbol's direct dependency is, which the minimal configuration relies on. |
| `ExprSyntax.ParsesExpr` | scripts/kconfiglib/kconfiglib.py:3405-3435 | The parser accepts every sentence of the documented grammar, takes exactly its tokens and returns its meaning, with m rewritten on request. |
| `ExprSyntax.ExprIsSentence` | scripts/kconfiglib/kconfiglib.py:3405-3435 | Whatever the parser takes is a sentence of the grammar with the returned meaning. |
| `ExprSyntax.RewrittenMeans` | scripts/kconfiglib/kconfiglib.py:3456-3459 | In conditions a lone m, outside relations, is worth m only while MODULES is not n, in every state. |
| `ExprSyntax.TokenCursor.Expression` | scripts/kconfiglib/kconfiglib.py:3396-3435 | The cursor version returns the same and moves past exactly the tokens taken, never past the end. |
| `ExprSyntax.TokenCursor.Conjunction` | scripts/kconfiglib/kconfiglib.py:3437-3444 | The same for and_expr. |
| `ExprSyntax.TokenCursor.FactorAt` | scripts/kconfiglib/kconfiglib.py:3446-3480 | The same for factor. |
| `ExprSyntax.TextOfTokens` | scripts/kconfiglib/kconfiglib.py:6088-6129 | The printed text is the text of the tokens used in the round trip. |
| `ExprSyntax.RightValue` | scripts/kconfiglib/kconfiglib.py:6013-6038 | Nesting chains to the right keeps the value in every state. |
| `ExprSyntax.PrintParse` | scripts/kconfiglib/kconfiglib.py:6088-6129 | Parsing the tokens of a printed choice-free expression takes all of them and gives it back with and/or chains nested to the right, with the same value in every state and the same text when printed again. |
| `ExprText.Tokenize` | scripts/kconfiglib/kconfiglib.py:2395-2560 | The loop that splits the rest of a line into tokens, for lines without macros: names, keywords, quoted constants, operators, comment. |
| `LexMeaning.LineMeans` | scripts/kconfiglib/kconfiglib.py:2395-2560 | Every line that is a sequence of names, quoted constants and operators, with any blanks between them and perhaps a comment after them, is split into the tokens of exactly these; a constant with a call that has no value is an error. |
| `ExprText.NamesAre` | scripts/kconfiglib/kconfiglib.py:7173 | Names consist of letters, digits and _ / . - and are as long as possible. |
| `ExprText.TextRoundTrip` | scripts/kconfiglib/kconfiglib.py:6088-6129 | For every choice-free expression whose names are read back as its symbols: tokenising the printed text and parsing the tokens gives the expression with and/or chains nested to the right. |
| `Macro.Preprocessor.ExpandWhole` | scripts/kconfiglib/kconfiglib.py:2680-2693 | Terminates by result or error, equals the one-pass expansion, and restores every expansion counter on a normal return. |
| `Macro.Preprocessor.ExpandMacro` | scripts/kconfiglib/kconfiglib.py:2762-2822 | The string with the call replaced by its value and nothing else changed, and the index after the value; counters restored. What a call's value is, is `MacroMeaning.CallExactly`. |
| `MacroMeaning.CallMeans` | scripts/kconfiglib/kconfiglib.py:2762-2822 | For all arguments, that is texts with calls in them whose parentheses match and whose commas are inside parentheses, and any text after the call: its value is that of its function on exactly the values of these arguments, whatever commas and parentheses the values of inner calls contain. |
| `MacroMeaning.CallExactly` | scripts/kconfiglib/kconfiglib.py:2762-2822 | A text is read as a call with a value if and only if it is a list of such arguments and a closing parenthesis, and the function has that value on them. |
| `MacroMeaning.WholeMeans` | scripts/kconfiglib/kconfiglib.py:2680-2693 | Expanding all of a text replaces each call in it by its value. |
| `MacroMeaning.ApplyMeans` | scripts/kconfiglib/kconfiglib.py:2803-2877 | The order of look-up: numbered argument (from the end for negative numbers), variable, function, environment, nothing; when re-entry and a wrong number of arguments are errors. |
| `MacroMeaning.LiteralMeans` | scripts/kconfiglib/kconfiglib.py:2729-2760 | A string literal has the value of its pieces (characters, escaped characters, calls) and ends at the first quote that is none of them. |
| `Macro.Preprocessor.FunctionValue` | scripts/kconfiglib/kconfiglib.py:2824-2877 | The value of a variable, function or environment variable; self-reference and the 102nd re-entry are errors. |
| `Macro.BudgetShrinks` | scripts/kconfiglib/kconfiglib.py:2834-2847 | Each expansion uses up one of finitely many permitted ones, which bounds all recursion. |
| `Macro.WholeConcat` | scripts/kconfiglib/kconfiglib.py:2680-2693 | Expansion is compositional: text from one expansion never joins with later text into a new call. |
| `Macro.CallExtends` | scripts/kconfiglib/kconfiglib.py:2762-2822 | A call does not look beyond its closing parenthesis. |
| `Macro.Preprocessor.ExpandStr` | scripts/kconfiglib/kconfiglib.py:2729-2760 | The in-place loop over a quoted string terminates and replaces the literal by its value, between the same quotes. |
| `Macro.Preprocessor.StringToken` | scripts/kconfiglib/kconfiglib.py:2460-2484 | The fast path for lines without $ and backslash and the slow path give the same value and position. |
| `Macro.LiteralOfEscaped` | scripts/kconfiglib/kconfiglib.py:2729-2760 | The quoted escaped form of every string without $ is read back as that string. |
| `Camera.Adapter.Init` | apps/src/tuya_ai_toy_camera.c:60-83 | Leaves empty tables; initialised exactly if everything succeeded. |
| `Camera.Adapter.Deinit` | apps/src/tuya_ai_toy_camera.c:85-98 | Whatever the driver does and returns, the tables are empty; the streams still started are those the driver left running, so the state is consistent if and only if it left none that was used. |
| `Camera.Adapter.Subscribe` | apps/src/tuya_ai_toy_camera.c:104-148 | A refused call and a failed start leave the whole state exactly as it was; a successful call changes one slot and one stream. |
| `Camera.Adapter.Unsubscribe` | apps/src/tuya_ai_toy_camera.c:150-180 | Frees exactly the slot; the stream stops exactly with its last slot. |
| `Camera.Adapter.StartedExactlyWhenUsed` | apps/src/tuya_ai_toy_camera.c:104-180 | In every state that calls can reach a stream is started and has the dispatcher exactly when some slot is active. |
| `Camera.Adapter.DispatchFrame` | apps/src/tuya_ai_toy_camera.c:30-54 | A frame goes to the clients of the active slots of its stream, in slot order; to none for a bad frame. |
| `Camera.ServedInOrder` | apps/src/tuya_ai_toy_camera.c:41-53 | Every active consumer is served exactly once, at the position given by the active consumers before it. |
| `CameraProtocol.CountAgreesAlways` | apps/src/tuya_ai_toy_camera.c:117-171 | In every interleaving in which no two threads drive the same slot at a time, the count of every stream is the number of its active slots whenever the mutex is free. |
| `CameraProtocol.CountKeptExactly` | apps/src/tuya_ai_toy_camera.c:137-142 | From a right count, a step leads to a wrong one if and only if it rolls back a slot that is no longer active while the count is positive. |
| `CameraProtocol.CountAgreesExactly` | apps/src/tuya_ai_toy_camera.c:117-171 | For all interleavings: the count is right throughout if and only if no such step occurs. |
| `CameraProtocol.CountCanBreak` | apps/src/tuya_ai_toy_camera.c:135-142 | An interleaving of three threads that leaves a count of 0 with one active slot. |
| `CameraProtocol.HardwareFollows` | apps/src/tuya_ai_toy_camera.c:130-178 | If calls on a stream do not overlap, the driver's state fits the call under way in every interleaving. |
| `CameraProtocol.NeverBlind` | apps/src/tuya_ai_toy_camera.c:131-134 | Then a stream never runs without the dispatcher, and with no call under way it runs exactly when some slot is active. |
| `CameraPromise.PromiseKeptExactly` | apps/src/tuya_ai_toy_camera.c:117-178 | Where slots are driven by one thread at a time, consider the promise that, however the calls under way go on, a stream with no call under way is started and has the dispatcher exactly when some slot is active. From a fitting state a step gives it up if and only if it starts a call on a stream while another call on it is under way. |
| `CameraPromise.PromisedExactly` | apps/src/tuya_ai_toy_camera.c:117-178 | For all such interleavings: the promise holds at every point of the run if and only if no two calls on a stream overlap. |
| `CameraProtocol.HardwareCanDiverge` | apps/src/tuya_ai_toy_camera.c:173-178 | The discipline per slot is not enough for the hardware: a stop under way overtakes a new start, and an active slot is left without frames. |
| `CameraProtocol.FailedStartStrands` | apps/src/tuya_ai_toy_camera.c:130-145 | The other way: a second subscriber gets OK while the first one's start is under way and then fails; its slot stays active with no stream and no dispatcher. |
| `CameraFrames.DispatchExact` | apps/src/tuya_ai_toy_camera.c:41-53 | In every interleaving a dispatch calls exactly the clients (callback and context) in active slots at its snapshot, once each and in order, whatever happens to the table meanwhile. |
| `CameraFrames.LateExactly` | apps/src/tuya_ai_toy_camera.c:41-53 | The next call of a dispatch goes to a client that is not in the slot any more if and only if the slot was released after the snapshot and has not been given to that client again. |
| `CameraFrames.LateCallHappens` | apps/src/tuya_ai_toy_camera.c:41-53 | And that happens: unsubscribe has returned, even another client has the slot, and the first one is called. |

## Left out

Assumptions of the model:

- Configurations are tables; numbers past the end of a table stand for undefined symbols. `ChoicesOk` demands that choice symbols and choices name each other and that choice defaults are members of the choice; the code only warns about the opposite.
- `ChoiceEdges` demands that a choice symbol depends on its choice or can never be visible. Finalisation gives this (`Propagate.FinalisationGivesChoiceEdges`) if choice symbols have prompts only inside their choice; the code only warns about the opposite.
- The value of MODULES must not depend on anything whose type reads MODULES (`WellRanked`, `EvaluationOrder.ModulesApart`): that read is not an edge of the dependency graph.
- Numbers are read and printed by an abstract `Numerals`; nothing is assumed about it except that empty text is no number, and in `Meaning.DefaultInRange` that numbers read back as they were printed. Python's grammar of `int(s, base)` is not modelled.
- `.config` lines are already split at `=`, and values have no line breaks; comment lines are not assignments. Trailing blanks are the ASCII ones.
- Quoted constants and undefined symbols of the same name are one symbol: both have their name as their value.
- Symbols are numbered in the order of their first definition, which finalisation keeps (`MenuHeap.Menu.FinalizeTop`); `ConfigWriter.WriteConfig` gets the walk over the tree as a sequence of events.
- In `Macro`, built-in functions are arbitrary functions from arguments to a result or an error, and Python's own recursion limit is not modelled.

Not modelled:

- DepLoop.Search.Check: covers symbols without choices; `ChoiceLoop` has the search with choices, with the marks passed along instead of updated in place.
- DepLoop.CheckAll: graphs of symbols without choices; with choices the equivalence is false (`ChoiceLoop.MissedPasses`).
- EvaluationOrder.PassGivesRank: choice-free configurations; with choices a pass gives no rank (`ChoiceLoop.MissedHasNoRank`), so the theorems about evaluation assume one (`WellRanked`).
- EvaluationOrder.Initialise: choice-free configurations, for the same reason.
- ChoiceLoop.RaisedIsGenuine: one direction; the other is proved for loops of dependencies between symbols (`ChoiceLoop.DependencyLoopRaises`). Which loops through choices are found depends on the order of the definitions, and no condition for it is given.
- MenuHeap.Menu.FinalizeNode: takes the automatic menu dependency as a relation between nodes, which `AutoMenu` defines (conditions of a node change only when the level above it is processed, before the relation is looked at). Propagation and choices are separate passes, in `Propagate` and `ChoiceMembers`.
- ExprText.Tokenize: lines without `$`; macros inside names are not modelled, nor are tokens after which strings are expected.
- SyncDeps.LoadOldVals: the exception for key symbols stands for the one that asking for group 1 of a pattern without groups raises (lines 1896 and 7200).
- Warnings, error texts, `missing_syms`, help texts, and the extra reads for the warning about unsatisfied selects.
- Files, `$srctree`, globbing, `source`, environment bookkeeping (`env_vars`), variable assignment in the preprocessor, and the expansion of symbol names.
- `tuya_ai_toy_camera_snapshot`, overlapping init and deinit, and the output mode switch: they depend on driver and semaphore behaviour.
- The rest of the repository (boards, menus, audio, build scripts): no property of comparable difficulty.
