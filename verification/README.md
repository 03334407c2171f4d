# DC/OS: proofs about configuration, bootstrap, package swap and publishing

This project models the parts of DC/OS where a mistake is hard to see in any one function, and proves
what they are for. Run `dafny verify dfyconfig.toml` to check everything.

## The configuration compiler

A template is text with substitutions, switches and loops. `gen/template.py` lexes and parses it,
extracts a schema (which variables are needed, and in which case of which switch), and renders it.
`gen/internals.py` finalises every variable the schema asks for, by a memoising depth-first
evaluation of conditional setters. Values known only at launch are rendered as placeholders and
filled in on the host.

- `Lexer.dfy`, `Tokenizer.dfy`, `Parser.dfy`, `Grammar.dfy`, `Printing.dfy`: the lexer and parser as
  they run, in place and behind a cursor, equal a recursive grammar. Which texts that accepts, and
  which tree each of them is, is an if-and-only-if over templates as they are written, with white
  space before a first case and cases written twice; and a printer is its inverse, exactly on the
  trees that some text parses to.
- `Templates.dfy`: the renderer, which overwrites the caller's arguments during loops, equals one that
  passes an environment down.
- `Targets.dfy`, `Extraction.dfy`: the extracted schema, exactly when schemas can be merged, and what
  a schema leaves out. Where it is covered,
  a template renders exactly when it is disciplined: each loop it reaches finds a list, and a bound
  variable if the list is empty, the filters it uses are given, and a switch on a loop variable
  finds the item among its cases, with everything that case needs. `Disciplined` states
  this over the arguments inside the loops. Conversely, where a template renders, its schema is covered exactly
  when the bodies of loops over empty lists, and the arguments behind switches on loop variables, are supplied too.
- `Settings.dfy`, `Journal.dfy`, `Rulings.dfy`, `Resolving.dfy`: `Settings.Step` is the ruling on one
  name, given what is finalised so far; `Rulings.dfy` says what it comes to in every case, told by the
  entries of the table alone. The resolver keeps a ghost log of its finalisations, each justified by those before.
  What a run guarantees follows from that log: agreement with a naive recursive evaluator, independence of
  the order of evaluation, no resolved name on a cycle, and a recorded cause behind every skipped error.
- `Pipeline.dfy`: end to end. `generate` overwrites resolved names before it renders
  (`gen/__init__.py:635-658`). A validated configuration still renders, exactly when its templates
  are disciplined, as long as no switch of the schema reads what was overwritten.
- `Tokens.dfy`, `LateBinding.dfy`, `ParsedTemplates.dfy`: placeholders are found again exactly where
  they were inserted, and filling them in late commutes with rendering. In a template that was
  parsed from text the names need no hypothesis of their own.

An abort of the resolver is an outcome here, not an assumption: `Resolver.Resolve` returns false when
an exception escapes. Then a name lies on a cycle, or, by what this very run had finalised, a
calculation or validator ends in an exception other than an AssertionError, the setters of a name
contradict each other, or a late variable meets a switch. A cycle through
parameters is recorded as an error, because the look for late parameters reaches it first; one
through conditions escapes.

## Bootstrap under a lock

`Etcd.dfy` and `Cockroach.dfy` (over `Addresses.dfy`) are step relations over any number of
processes. A step is one effect: a read or write of the node list, a command, a file. Every process may
crash before any step, which releases the lock. History variables record which join wrote "new", when the list was
emptied, which bootstraps were started and which were lost, so that the theorems are about whole runs. Assumed: the
lock excludes, and a process that loses its session has crashed. A node runs one `join_cluster` at a time, as its
systemd unit does, and starts etcd only after it returned normally. An etcd member has a name
once its etcd has started, and the source finds members by name.

The comment in `packages/etcd/extra/etcd_discovery/etcd_discovery.py:426-430` concedes that the
cluster does not form if the first node dies before writing its files. The model agrees: safety does not need that
node, and no theorem here says that a cluster forms.

## Package swap

`Swap.dfy` is `swap_active` and `recover_swap_active` on a machine with a number of effects left to
live; `Recovery.dfy` follows it through any number of stops. The source says of itself that recovery is not implemented
properly (`pkgpanda/__init__.py:959`). What is true is proved as an if-and-only-if: recovery works
until the first new path has been moved in, and refuses ever after, because its check for `.new` paths fails.

## Publishing, rollback, merging

`Publish.dfy` makes the staged commands and `Storage.dfy` runs them; `Staging.dfy` proves the
staging promise from the metadata, for any number of providers and any interruption. Destinations have to
be distinct, within one artifact too: a channel path can spell a reproducible path, and is then
written in both stages. `Rollback.dfy` is the copy loop with its
compensation, over directory trees; it restores exactly when no file whose copy was tried was there before, because it
removes what it overwrote. `Merge.dfy` merges YAML trees as values; `MergeInPlace.dfy` is the code, which
copies dictionaries but extends the very list and set objects it was given.

`Wrappers.dfy` holds the two types that stand for None and for exceptions.

## Model

| member | source | states |
|---|---|---|
| `Tokenizing.Tokenizer.constructor` | gen/template.py:42-59 | the token list built by chopping the text in place is the one `Tokenize` specifies, or the same error is kept |
| `Tokenizing.Tokenizer.Advance` | gen/template.py:66-70 | the cursor moves by one; it may not move past the last token |
| `Tokenizing.Tokenizer.ReadWhitespace` | gen/template.py:96-102 | exactly one space is taken; running off the text is a different error from a wrong character |
| `Tokenizing.Tokenizer.ReadName` | gen/template.py:104-112 | the loop takes the longest run of identifier characters, and fails at the end of the text |
| `Tokenizing.Tokenizer.ReadQuoted` | gen/template.py:114-147 | the loop decodes a quoted string with its two escapes, or rejects it |
| `Tokenizing.Tokenizer.ReadToken` | gen/template.py:72-94 | one token off the front, in place, equals the pure lexer, longest match first |
| `Tokenizing.Tokenizer.ReadControl` | gen/template.py:169-211 | every directive is recognised by its keyword in the order of the source |
| `Tokenizing.Tokenizer.ReadFor` | gen/template.py:195-204 | the head of a loop |
| `Tokenizing.Tokenizer.ReadSubstitution` | gen/template.py:212-242 | a substitution with or without a filter |
| `Lexer.ReadIsSpelled` | gen/template.py:72-246 | a token that was read is canonical, and spelling it in front of the rest gives the text back |
| `Lexer.SpelledIsRead` | gen/template.py:72-246 | a canonical token that is spelled in front of a text is read back, with that text left |
| `Lexer.TokenizeIff` | gen/template.py:42-246 | for every text and token list: the text lexes to the list if and only if the list is canonical and spells the text |
| `Lexer.StringSpelled` | gen/template.py:114-147 | escaping a string and reading it back is the identity |
| `Lexer.IdentifierTaken` | gen/template.py:104-112 | what is taken is an identifier, and what follows does not continue it |
| `Lexer.BlobLengthOf` | gen/template.py:82-92 | a blob ends right at the next brace |
| `Parser.ReadChunks` | gen/template.py:476-492 | the cursor-driven loop builds the list of the grammar and stops at the same token |
| `Parser.ReadFor` | gen/template.py:426-443 | a loop needs its end |
| `Parser.ReadSwitch` | gen/template.py:446-473 | the loop over the cases equals the grammar; which texts may stand before the first case is `Grammar.PartParses` and `Printing.BlankBeforeCases` |
| `Parser.ReadTemplate` | gen/template.py:495-502 | the whole parse equals the grammar, with the same class of error; which texts that accepts, and with which tree, is `Grammar.ParsesIff` |
| `Grammar.ParsesIff` | gen/template.py:426-502 | for every text and tree: the text parses to the tree if and only if it is written as a template that means this tree, with nothing but white space before any first case |
| `Grammar.WrittenParses` | gen/template.py:426-492 | whatever is written so parses, at any depth, and to its meaning |
| `Grammar.ParsedIsWritten` | gen/template.py:476-492 | whatever parses was written so |
| `Grammar.LastArmWins` | gen/template.py:455-459 | of several cases written for one value a switch takes the last |
| `Grammar.SetCaseLooksUp` | gen/template.py:459 | the assignment to the dictionary of cases: the new value is found, and all others as before |
| `Grammar.SwitchRenders` | gen/template.py:326-331 | a switch renders the last case written for its argument, or fails with the error for a missing argument, a list or an unhandled value |
| `Grammar.TwoBlanks` | gen/template.py:463-468 | two pieces of text before the first case trip the assertion if the first is white space, and are a ValueError if not |
| `Printing.ParsedIsCanonical` | gen/template.py:495-502 | whatever parses gives a canonical tree: identifiers for names, no case value twice, text cut as the lexer cuts it |
| `Printing.PrintedParsesIff` | gen/template.py:426-502 | for every tree: parsing its printed form gives the tree back if and only if the tree is canonical |
| `Printing.ReprintParsesAlike` | gen/template.py:495-502 | printing what was parsed parses to the same tree again |
| `Printing.EscapedRendersIff` | gen/template.py:158-168 | escaped literal text parses and renders to itself under all arguments; if an odd run of braces precedes a percent sign, it does not without arguments |
| `Printing.EscapedTokens` | gen/template.py:158-168 | what the lexer makes of escaped text, in both cases |
| `Printing.SetNewCase` | gen/template.py:459 | a new case goes to the end of the dictionary |
| `Printing.ParsedCasesAreCanonical` | gen/template.py:446-473 | dropped white space and overwritten cases leave a canonical dictionary |
| `Printing.BlankBeforeCases` | gen/template.py:463-468 | text before the first case of a canonical switch: if and only if every character of it is white space (code points spelled out) the switch parses as without it, and else it is a ValueError |
| `Printing.BlankTextBeforeCases` | gen/template.py:446-502 | the same from the text of a whole template |
| `Printing.SubstitutionRenders` | gen/template.py:331-341 | a text that is one substitution renders to its argument, through its filter if it names one, and fails if the argument or the filter is missing |
| `Templates.RenderAst` | gen/template.py:323-371 | the renderer that overwrites the caller's arguments gives the pure result, and puts the arguments back on normal return |
| `Templates.RenderChunk` | gen/template.py:323-369 | the same for one chunk; on an error nothing outside the loop variables has changed |
| `Templates.RenderFor` | gen/template.py:344-361 | the stash and restore of a loop variable, including the deletion of one that was never bound |
| `Templates.LookupLoopVars` | gen/template.py:326-331 | a selected case binds no loop variable that the switch does not |
| `Templates.LoopJoins` | gen/template.py:344-361 | a loop renders to what its body gives for the items, joined in their order |
| `Templates.LoopFails` | gen/template.py:344-361 | the error of a loop is that of the first item its body fails for |
| `Targets.MergesIff` | gen/internals.py:150-166 | two targets merge if and only if there is no route of switch names and case values, down to which both have a target, where both switch over one name and handle different sets of values |
| `Targets.MergedMergesIff` | gen/internals.py:225-237 | a merged target merges with a third one if and only if both of its parts do |
| `Targets.MergedReaches` | gen/internals.py:150-166 | what the merged target has at the end of any route: what either has, or the merge of both |
| `Targets.TargetIff` | gen/template.py:373-395 | a template has a target if and only if each chunk has one and no two of these clash anywhere |
| `Targets.MergeCovers` | gen/internals.py:225-237 | arguments cover a merged target if and only if they cover both parts |
| `Targets.MergeScopeCovers` | gen/internals.py:150-166 | the same for merged switches |
| `Targets.RendersIffCovered` | gen/template.py:315-395 | for every template and all arguments: where the target is covered, the template renders if and only if it is disciplined; where it renders, the target is covered if and only if what the rendering skipped is supplied too |
| `Targets.TargetMeansSupplied` | gen/template.py:373-395 | the extracted target is covered exactly when everything the template reads outside its loops is supplied |
| `Targets.SuppliedChunkRendersIff` | gen/template.py:325-369 | the first half for one chunk inside any loops, with any arguments |
| `Targets.RenderedIsSuppliedIff` | gen/template.py:323-371 | the second half, inside any loops |
| `Targets.SuppliedLoopRendersIff` | gen/template.py:344-361 | a loop over any list, the empty one included, renders if and only if its body is disciplined for every item |
| `Targets.SwitchOnLoopVariable` | gen/template.py:377-381 | a switch on a loop variable asks for an argument that rendering does not need |
| `Targets.LoopsAreNotInTheTarget` | gen/template.py:386-387 | the list of a loop is not in the target: it can be covered while rendering fails |
| `Targets.MergeEmpty` | gen/internals.py:225-237 | merging with the empty target changes nothing |
| `Extraction.TargetObject.AddVariable` | gen/internals.py:192-193 | a name joins the variables, nothing else changes |
| `Extraction.TargetObject.AddScope` | gen/internals.py:195-199 | a switch is merged into one over the same variable, or added; it fails exactly when the pure merge does, which is when `Targets.MergesIff` finds a clash |
| `Extraction.TargetObject.Absorb` | gen/internals.py:225-237 | `+=` on targets in place is the pure merge, and fails exactly when that does, which is when `Targets.MergesIff` finds a clash |
| `Extraction.VariablesFromAst` | gen/template.py:374-393 | the recursion that fills a mutable target gives the pure target |
| `Extraction.ScopeFromCases` | gen/template.py:377-380 | a switch gives one target for each case |
| `Pipeline.TargetFromTemplates` | gen/__init__.py:271-281 | the loop over the templates merges their targets in order, or fails; when it fails is `Pipeline.AllMergeIff` |
| `Pipeline.AllMergeIff` | gen/__init__.py:271-281 | templates have a common target if and only if each has its own and no two of these clash anywhere |
| `Settings.StepMonotone` | gen/internals.py:559-638 | once the ruling on a name is made, more finalised names do not change it |
| `Settings.FeasibleMonotone` | gen/internals.py:562-574 | the feasible setters do not change when more names are finalised |
| `Settings.ConditionsMonotone` | gen/internals.py:562-571 | nor does the verdict on a setter's conditions |
| `Rulings.FeasiblePicked` | gen/internals.py:562-574 | the setters are chosen exactly if the conditions of each are settled; then they are the ones whose conditions all hold by the outcomes so far, each in its place and as often as it stands in the table; a name in error at the first condition that is not met raises instead |
| `Rulings.ConditionsMean` | gen/internals.py:562-571 | conditions hold, fail or raise exactly by the first one that is not met |
| `Rulings.NothingHolds` | gen/internals.py:576-590 | if the conditions of no setter hold, the name is unset |
| `Rulings.LoneCandidate` | gen/internals.py:576-590 | if those of one setter hold, it decides, must or not |
| `Rulings.DefaultsClash` | gen/internals.py:580-590 | two or more optional setters without a must abort |
| `Rulings.MustBeatsDefaults` | gen/internals.py:580-584 | one must whose conditions hold decides, however many optional setters' conditions hold too |
| `Rulings.MustsClash` | gen/internals.py:599-611 | two musts whose conditions hold are an error, in any order and among any number of musts, unless a late parameter withdraws one of the two: a user value for a name that must be calculated, for instance |
| `Rulings.LastMustDecides` | gen/internals.py:599-613 | if late parameters withdraw all of several musts but one, that one decides |
| `Rulings.LateMustsWithdraw` | gen/internals.py:599-613 | if they withdraw all of them, the choice among nothing aborts |
| `Rulings.AppliedIff` | gen/internals.py:592-638 | exactly when the one chosen setter makes its name late, skipped, resolved, reported or aborts, by the outcomes of its parameters, by what it computes from their values, and by validation |
| `Rulings.ValidatedIff` | gen/internals.py:486-495 | a value passes if and only if every validator of the name accepts it and every switch over the name, at the end of any route of any target, handles it; the first validator that does not accept decides how it fails |
| `Rulings.ResolvedMeans` | gen/internals.py:559-638 | by the final outcomes of a run: the conditions of some setter of a resolved name hold, its parameters are resolved, and the value is what it computes from theirs and passes validation |
| `Journal.RankedIffAcyclic` | gen/internals.py:640-653 | a table has a ranking of its names if and only if no name needs itself |
| `Journal.AcyclicLogDenotes` | gen/internals.py:559-707 | on a table without a cycle every recorded outcome is the one of the naive recursive evaluator |
| `Journal.LogDenotes` | gen/internals.py:559-707 | the same for any ranking that the evaluator follows |
| `Journal.RunsAgree` | gen/internals.py:655-707 | so on a table without a cycle two runs in any two orders agree on every name both finalised |
| `Journal.UsedBefore` | gen/internals.py:559-679 | parameters and satisfied conditions of a resolved name were finalised before it, without error |
| `Journal.NoResolvedCycle` | gen/internals.py:640-679 | no chain of resolved names through what they were computed from comes back to its start |
| `Journal.ErrorHasRootCause` | gen/internals.py:576-578 | a silently skipped error leads, along dependencies, to one that was recorded |
| `Journal.NothingRecordedNothingFailed` | gen/internals.py:655-679 | if no error was recorded, none was skipped |
| `Journal.ResolvedIsValidated` | gen/internals.py:486-495 | a resolved value passed its validators and lies in the cases of every switch it can meet |
| `Journal.ChosenDecides` | gen/internals.py:592-630 | the setter singled out stays so while its parameters are finalised |
| `Journal.ChosenGivesValue` | gen/internals.py:613-638 | a resolved value is what the one chosen setter computes from resolved parameters |
| `Journal.PrefixSound` | gen/internals.py:655-679 | every earlier state of a run was sound too |
| `Resolving.Resolver.EnsureFinalized` | gen/internals.py:655-679 | on normal return the name is finalised, nothing finalised has changed, and the stack is as before |
| `Resolving.Resolver.CalculateOnStack` | gen/internals.py:640-679 | the stack gains the name and loses it again; an escaping exception leaves the stacked names unresolved |
| `Resolving.Resolver.Push` | gen/internals.py:641-651 | the stack never repeats a name and follows the dependencies |
| `Resolving.Resolver.Pop` | gen/internals.py:652-679 | the outcome is recorded once, in the set it belongs to |
| `Resolving.Resolver.ResolveName` | gen/internals.py:681-707 | a value, or a skip for a name in error; a cycle met here aborts |
| `Resolving.Resolver.CheckConditions` | gen/internals.py:562-571 | conditions are tried in order and the first false one decides |
| `Resolving.Resolver.SelectFeasible` | gen/internals.py:573-574 | the loop selects what `Settings.Feasible` specifies, which `Rulings.FeasiblePicked` says is exactly the setters whose conditions hold, in order; a condition on a name in error skips the name |
| `Resolving.Resolver.FindLate` | gen/internals.py:592-597 | finds a late parameter in whatever order the set is walked; here a cycle is reported |
| `Resolving.Resolver.DropLate` | gen/internals.py:599-600 | what is left after the late ones, possibly nothing |
| `Resolving.Resolver.Calculate` | gen/internals.py:559-638 | the outcome is justified by what has been finalised |
| `Resolving.Resolver.ChooseAmong` | gen/internals.py:576-613 | none, one or many feasible setters |
| `Resolving.Resolver.SettleMusts` | gen/internals.py:599-613 | several musts: late ones are dropped, two or more left are an error |
| `Resolving.Resolver.SettleRemaining` | gen/internals.py:602-613 | of the musts left after that: two or more are an error, none aborts, one decides |
| `Resolving.Resolver.ApplySetter` | gen/internals.py:613-638 | late, skipped or calculated |
| `Resolving.Resolver.GatherArguments` | gen/internals.py:622-630 | the parameters' values, or the first error among them |
| `Resolving.Resolver.CallSetter` | gen/internals.py:632-638 | calculation and single-argument validation |
| `Resolving.Resolver.FinalizeTop` | gen/internals.py:655-679 | a call from outside meets no cycle of its own, and finalises only the name and what it needs |
| `Resolving.Resolver.CalculateTarget` | gen/internals.py:709-744 | every name the target needs is finalised, down the cases selected, and nothing that the target does not ask for there, directly or through dependencies |
| `Resolving.Resolver.CalculateScope` | gen/internals.py:716-742 | the same for one switch: the value is in its cases, unless it is late |
| `Resolving.Resolver.Resolve` | gen/internals.py:748-756 | terminates on every table; on normal return every target was visited, no name was finalised that none of them asks for in the cases it selects, the failed parameter sets are recorded and none has crashed; an abort is explained by a cycle or by what this run had finalised |
| `Resolving.Resolver.ValidateMultiple` | gen/internals.py:502-532 | exactly the failing applicable parameter sets are recorded |
| `Resolving.Resolver.ValidateSet` | gen/internals.py:502-532 | one parameter set; every resolvable it reads is finalised |
| `Resolving.Resolver.OkMeansNoFailure` | gen/internals.py:769-772 | status ok if and only if no finalised name failed and no parameter set was rejected; then every resolvable ever created is resolved or late |
| `Resolving.Resolver.FinalArguments` | gen/__init__.py:578-579 | each name with its value, late ones with their placeholder |
| `Resolving.CycleOnStack` | gen/internals.py:642-647 | a name found on the stack is on a dependency cycle |
| `Resolving.ValueIsGuarded` | gen/internals.py:733-734 | a resolved or late value that meets a switch: validation has put resolved ones in its cases |
| `Pipeline.VisitedIsCovered` | gen/internals.py:709-744 | a visited target is covered by arguments that bind every finalised name, provided those a switch reads have their final value |
| `Pipeline.ValidatedRenders` | gen/__init__.py:612-700 | validated: a template of the set then renders if and only if it is disciplined, whatever was overwritten since except what a switch reads |
| `Pipeline.OverwrittenSwitch` | gen/__init__.py:635-658 | overwriting what a switch reads can make the rendering fail |
| `Pipeline.AnywayIsDisciplined` | gen/template.py:344-371 | a discipline that can be checked on the program's own arguments, before anything is resolved |
| `Pipeline.AllCovered` | gen/__init__.py:271-281 | the merged target is covered exactly when each template's target is |
| `Pipeline.Generate` | gen/__init__.py:612-700 | end to end, which way it ends: a schema conflict exactly if the targets do not merge; any other exception only for a cycle, a calculation, a late switch or a check of this very run; invalid exactly if that run ended and a name failed or a parameter set was rejected, where only names the templates ask for were finalised; else the texts or the first rendering error, and if no switch reads what was added or overwritten, the texts exactly if all templates are disciplined |
| `Pipeline.ValidateAndRaise` | gen/__init__.py:536-544 | refused exactly for a finalised name that failed or a parameter set that was rejected, which late values are not |
| `Pipeline.RenderFinal` | gen/__init__.py:242-265 | once valid: the final arguments overwritten by the program's own and nothing else, and what rendering with them comes to |
| `Pipeline.RenderAll` | gen/__init__.py:242-265 | one dictionary of arguments serves every template, and is intact after each; all render if and only if all are disciplined, and else the error is that of the first that fails |
| `Tokens.SplitByToken` | pkgpanda/util.py:597-665 | the generator yields the specified parts, or rejects |
| `Tokens.SplitIsTidy` | pkgpanda/util.py:629-665 | what is yielded joins to the input; tokens have no delimiter inside, other parts none at all |
| `Tokens.SplitIff` | pkgpanda/util.py:597-665 | for delimiters that do not overlap themselves: the parts are yielded if and only if they are a tidy split of the text |
| `Tokens.UnborderedFoundFirst` | pkgpanda/util.py:613-617 | such a delimiter is found where it was put |
| `Tokens.TidyIsScanned` | pkgpanda/util.py:629-665 | every well-formed interleaving is split back exactly |
| `Tokens.ScanIsTidy` | pkgpanda/util.py:629-665 | the other direction: what the scan finds is tidy |
| `LateBinding.RenderLateContent` | gen/__init__.py:331-348 | every placeholder is replaced by its value, an unknown one rejects the file |
| `LateBinding.FilledIff` | gen/__init__.py:331-348 | filling in fails exactly for a placeholder whose name has no value |
| `LateBinding.LateBindingCommutes` | gen/__init__.py:331-348 | rendering with placeholders and filling them in later equals rendering with the final values, errors included |
| `LateBinding.PlaceholdersFoundIff` | gen/__init__.py:331-348 | exactly the inserted placeholders are found again if and only if no output between them contains a delimiter |
| `LateBinding.OpenThenFill` | gen/template.py:315-371 | rendering with holes and filling them is rendering |
| `LateBinding.OpenIgnoresLate` | gen/template.py:315-371 | rendering with holes does not depend on the late values |
| `LateBinding.IdentifierIsClean` | gen/internals.py:422-424 | a name that a template can spell contains no delimiter |
| `ParsedTemplates.HolesAreNames` | gen/template.py:495-502 | every late name that a parsed template inserts is an identifier |
| `ParsedTemplates.ParsedLateBindingCommutes` | gen/__init__.py:331-348 | for a template parsed from text, late binding commutes with rendering as soon as the output between the placeholders contains no delimiter |
| `LateBinding.DelimitersAreUnbordered` | gen/internals.py:364-366 | the two delimiters do not overlap themselves |
| `Etcd.StepKeepsInv` | packages/etcd/extra/etcd_discovery/etcd_discovery.py:389-496 | every step of every process keeps the invariant |
| `Etcd.RegisteringKeepsKnowledge` | packages/etcd/extra/etcd_discovery/etcd_discovery.py:208-237 | what the lock holder read is still current when it writes the list back |
| `Etcd.RemovingKeepsInv` | packages/etcd/extra/etcd_discovery/etcd_discovery.py:240-269 | removal from the list, and the epoch it may end |
| `Etcd.LeaveKeepsInv` | packages/etcd/extra/etcd_discovery/etcd_discovery.py:750-785 | the other steps of a leaver |
| `Etcd.WithoutRemoves` | packages/etcd/extra/etcd_discovery/etcd_discovery.py:265 | the first occurrence is removed; the list has no other |
| `Etcd.RunKeepsInv` | packages/etcd/extra/etcd_discovery/etcd_discovery.py:389-496 | every reachable state, for any interleaving and any crashes |
| `Etcd.NewIsWrittenOnce` | packages/etcd/extra/etcd_discovery/etcd_discovery.py:431-494 | between two steps that leave "new" in the state file they dump, on whichever nodes, a leaver has emptied the list |
| `Etcd.NewIsWrittenByFounder` | packages/etcd/extra/etcd_discovery/etcd_discovery.py:431-494 | whoever dumps a state file that says "new" had put itself on the empty list under the lock in the same epoch |
| `Etcd.WriteIsRecorded` | packages/etcd/extra/etcd_discovery/etcd_discovery.py:491-496 | a write is put on record exactly for a step that leaves "new" in the state file |
| `Etcd.NewAppears` | packages/etcd/extra/etcd_discovery/etcd_discovery.py:491-496 | no other step makes a state file say "new" |
| `Etcd.JoinReturns` | packages/etcd/extra/etcd_discovery/etcd_discovery.py:389-496 | when a join returns normally its state file says "new" exactly if this very join is the one on record in this epoch, its nodes file is the list as it was left by its registration, with its own address, and both are there unless the disk was lost since |
| `Etcd.DoneHasFiles` | packages/etcd/extra/etcd_discovery/etcd_discovery.py:396-410 | wherever join-cluster has succeeded, by the protocol or by its short way, both files are there unless the disk was lost since |
| `Etcd.ListChanges` | packages/etcd/extra/etcd_discovery/etcd_discovery.py:208-269 | the list changes only by a join that appends its address, or a leaver that takes out its own and keeps the others in order |
| `Etcd.MembersChange` | packages/etcd/extra/etcd_discovery/etcd_discovery.py:431-489 | the ensemble changes only by the two commands of a rejoin, by a leaver and by a founder; a listed node that has its data is left alone, only a started member is removed, and none is added beside one |
| `Etcd.LeaveReturns` | packages/etcd/extra/etcd_discovery/etcd_discovery.py:750-785 | when a leaver returns normally its address is off the list, and no started member has it, unless no node was left to ask or its etcd was started again after the leaver had looked |
| `Etcd.FounderRegistered` | packages/etcd/extra/etcd_discovery/etcd_discovery.py:208-237 | every founder on record did so in the run |
| `Etcd.EpochsDiffer` | packages/etcd/extra/etcd_discovery/etcd_discovery.py:750-785 | an epoch ends only when a leaver empties the list |
| `Etcd.ListedIsMember` | packages/etcd/extra/etcd_discovery/etcd_discovery.py:431-489 | a listed address is a member, or its own rejoin removed it and has not added it yet |
| `Etcd.LimboSince` | packages/etcd/extra/etcd_discovery/etcd_discovery.py:482-485 | being in between starts with the removal and ends with the adding, and nowhere else |
| `Etcd.JoinRestores` | packages/etcd/extra/etcd_discovery/etcd_discovery.py:389-496 | a node in between cannot return early: before its join next returns normally it is listed and a member again |
| `Etcd.ExceptionIsReal` | packages/etcd/extra/etcd_discovery/etcd_discovery.py:482-485 | a run of two nodes from the initial state that ends with a listed address that is no member, and the lock free |
| `Etcd.RejoinCanBeCutShort` | packages/etcd/extra/etcd_discovery/etcd_discovery.py:482-485 | the last part of it, from any state where a listed node has lost its data |
| `Cockroach.StepKeepsInv` | packages/cockroach/extra/register.py:503-583 | every step of every process keeps the invariant |
| `Cockroach.GoKeepsKnowledge` | packages/cockroach/extra/register.py:503-583 | what others remember of the list stays a prefix of it |
| `Cockroach.StepAppends` | packages/cockroach/extra/register.py:468-494 | the list changes only by one new address at its end |
| `Cockroach.ListOnlyGrows` | packages/cockroach/extra/register.py:468-494 | no registration is lost, moved or doubled in any run |
| `Cockroach.NoBootAfterRegistration` | packages/cockroach/extra/register.py:553-583 | no cluster is started once a registration has landed, however stale the first look was |
| `Cockroach.BootsAreBounded` | packages/cockroach/extra/register.py:563-583 | clusters started: one more, at most, than bootstrappers that crashed before registering |
| `Cockroach.SecondBootHappens` | packages/cockroach/extra/register.py:563-583 | the bound is reached: a run of two processes from the initial state that starts two clusters, one of them lost |
| `Cockroach.FileStaysPrefix` | packages/cockroach/extra/register.py:497-500 | a node file lists its node and is a prefix of every later list |
| `Cockroach.DoneIsRegistered` | packages/cockroach/extra/register.py:503-583 | a process that has come to its end is in the list, and its node has a file with its address |
| `Cockroach.FileUnderLock` | packages/cockroach/extra/register.py:523-583 | a node file is written under the lock by a process whose first look saw no list, and without it by one that saw a list |
| `Cockroach.BooterFilesFirst` | packages/cockroach/extra/register.py:563-583 | whoever started the cluster gives the lock back only after its node file is written, unless it crashes |
| `Cockroach.CrashIsCounted` | packages/cockroach/extra/register.py:503-583 | what the history variables count |
| `Swap.Install.SwapActive` | pkgpanda/__init__.py:961-1010 | the calls, on a machine that may stop at any rename or progress write, carry out a prefix of the plan, or refuse |
| `Swap.Install.ArchiveCurrent` | pkgpanda/__init__.py:992-996 | the archiving loop moves exactly the names that exist |
| `Swap.Install.MoveAllIn` | pkgpanda/__init__.py:1003-1005 | the second loop moves every new name in |
| `Swap.Install.CheckStaged` | pkgpanda/__init__.py:966-969 | every needed path is there |
| `Swap.Install.RecoverSwapActive` | pkgpanda/__init__.py:941-955 | recovery repeats the stage on record |
| `Recovery.CarriedFromArchiving` | pkgpanda/__init__.py:992-1005 | from any point of the archiving: where a stop leaves the disk, and that no move hits an existing path |
| `Recovery.CarriedFromMoving` | pkgpanda/__init__.py:1003-1010 | the same for the second loop |
| `Recovery.ReachedAt` | pkgpanda/__init__.py:941-1010 | after any number of stops and recoveries the disk is at one definite point of the swap |
| `Recovery.CrashesAreSafe` | pkgpanda/__init__.py:941-1010 | old and new entries are each in exactly one place, never active together, and no move lands on an existing destination |
| `Recovery.RecoveryConvergesIff` | pkgpanda/__init__.py:941-969 | recovery completes the swap if and only if no new entry had been moved in; else it refuses and changes nothing |
| `Recovery.SwapIsFree` | pkgpanda/__init__.py:961-1010 | from any disk: a swap is refused, and changes nothing, if and only if some name is not staged; if it is not refused and nothing is in the way, every move finds its source and a free place |
| `Publish.CommandMaker.AddDest` | release/__init__.py:181-224 | the first destination is filled from the source, every other one is a copy of it |
| `Publish.CommandMaker.ProcessArtifact` | release/__init__.py:176-242 | the commands of one artifact are appended to the two stages |
| `Publish.MakeCommands` | release/__init__.py:172-258 | fails exactly if some core or channel artifact cannot be published; else every path where a core artifact, a channel artifact or the metadata belongs is a destination of some command, and nothing else is, and the metadata comes last in both stages |
| `Publish.AllMadeFor` | release/__init__.py:181-242 | every command is made for one artifact, with its content and type; uploads under paths that may change are neither skipped nor cached, and a reproducible path is always skipped where it exists |
| `Storage.Providers.ApplyStorageCommands` | release/__init__.py:669-683 | the nested loops take the turns in order and stop where interrupted |
| `Storage.Providers.ApplyToProvider` | release/__init__.py:675-683 | the inner loop on one provider |
| `Staging.MadeCommandsAreReady` | release/__init__.py:172-258 | every copy the generator asks for reads a path that is placed before it |
| `Staging.RightContentsExist` | release/__init__.py:172-258 | with distinct destinations a store that has what is copied from, and holds the right content where it is copied from or skipped, determines every destination; a source may be a destination itself |
| `Staging.StagesAreDisjoint` | release/__init__.py:230-242 | with distinct destinations no path is written in both stages |
| `Staging.OnePathInBothStages` | release/__init__.py:230-242 | a channel path that spells a reproducible one is written in both |
| `Staging.PublishingKeepsItsPromise` | release/__init__.py:669-692 | from the metadata alone, for any interruption: no copy lacks its source; a changed stage 2 path anywhere means stage 1 is in place everywhere; rerunning ends as an uninterrupted run does |
| `Staging.PublishingFinishes` | release/__init__.py:669-683 | from the metadata alone: an uninterrupted run ends with every destination holding its artifact's content, and nothing else changed |
| `Staging.PublishingIsRight` | release/__init__.py:669-683 | an uninterrupted run finishes, with the right content at every destination of every provider and nothing else changed |
| `Staging.StagesAreOrdered` | release/__init__.py:685-692 | the order of the stages, for any commands that write no path in both |
| `Staging.RerunConverges` | release/__init__.py:669-683 | rerunning after an interruption at any command gives the stores of an uninterrupted run |
| `Staging.TakenProjects` | release/__init__.py:672-683 | providers do not interfere |
| `Staging.RunIsRight` | release/__init__.py:669-683 | on one store: no source is missing, and each destination holds the right content |
| `Rollback.Mover.DoMoveAtomic` | dcos_installer/config_util.py:49-94 | a failure at any command restores the tree if and only if no file whose copy was tried was there before, unless a file to copy is an existing directory; success adds just the files and their directories |
| `Rollback.FailureRestoresIff` | dcos_installer/config_util.py:49-94 | the same for the run as a function, wherever it fails |
| `Rollback.RestoresAlwaysIff` | dcos_installer/config_util.py:49-94 | a copy that would succeed when left alone restores the tree at every point of failure if and only if none of the files is there before |
| `Rollback.AllKeepTrack` | dcos_installer/config_util.py:81-89 | while no tried file was there before, the journal holds everything new, and parents come before what is in them |
| `Rollback.Mover.MakeParents` | dcos_installer/config_util.py:41-46 | the missing parents are made from the top, each one on record |
| `Rollback.Mover.UndoAll` | dcos_installer/config_util.py:64-79 | files, then directories, in reverse |
| `Rollback.DirsAreRemoved` | dcos_installer/config_util.py:72-77 | in reverse order every directory is empty when it is removed |
| `Rollback.UndoRestores` | dcos_installer/config_util.py:64-79 | undoing the journal gives the tree before |
| `Rollback.UndoLosesOldFiles` | dcos_installer/config_util.py:64-71 | a file that was there before its copy was tried is lost |
| `Merge.JoinAssociates` | gen/__init__.py:197-222 | merging three trees in either grouping is rejected alike or gives the same tree |
| `Merge.GroupingIsIrrelevant` | gen/__init__.py:242-265 | every grouping of a sequence of trees gives what the fold gives |
| `Merge.MergedAt` | gen/__init__.py:197-222 | every path of either tree is in the merged one, and no other |
| `Merge.MergeableIff` | gen/__init__.py:197-222 | two trees can be merged if and only if what both have at the end of any path is two dictionaries, two lists or two sets |
| `Merge.FoldedAt` | gen/__init__.py:242-265 | after the fold a list is the templates' lists in their order |
| `MergeInPlace.MergeDictionaries` | gen/__init__.py:197-222 | extending shared lists and sets in place still gives the merge of the values the trees had |
| `MergeInPlace.MergeEntry` | gen/__init__.py:204-219 | two values under one key |
| `MergeInPlace.MergeTemplates` | gen/__init__.py:253-263 | the loop over a file's documents, null and lists among them, is the fold |
| `MergeInPlace.AddDocument` | gen/__init__.py:260-263 | one document: a result that counts as false is replaced, dictionaries are merged, anything else raises |
| `MergeInPlace.SharedListShowsTwice` | gen/__init__.py:209-211 | a list shared by two keys and extended under one shows under the other |
| `Merge.DictionariesFold` | gen/__init__.py:253-263 | for dictionaries the fold over documents is the fold of the merge |
| `Merge.OtherDocument` | gen/__init__.py:253-263 | a document that is no dictionary, null included, replaces what counts as false, and otherwise rejects the file |
| `Merge.DictionaryAfterOther` | gen/__init__.py:260-263 | after a result that is no dictionary only an empty dictionary passes, and after a scalar none |

## Left out

- Targets.Merge: the source's targets are objects that `+=` shares between schemas; here the nested targets are values, and only the outermost target is an object (`Extraction.TargetObject`), so sharing of inner targets is not modelled.
- Templates.Rendered: filters and `str` of a list are total functions from outside, so a filter that raises is not modelled; arguments are strings or lists.
- Parser.ParseStr: errors are kept as a class of exception; message texts and positions are not modelled.
- Settings.Step: `calc` and the validators are functions from outside that may reject, raise or ask for late binding; reading signatures for their parameters is left out, and so is the text of errors and chains.
- Resolving.Resolver.Resolve: what the fields hold after an exception has escaped is stated only as far as the names on the stack (unresolved) and finalised values (unchanged).
- Resolving.Resolver.CalculateTarget: the dictionary it passes to `Target.finalize` is always empty in the source and is left out.
- Pipeline.Generate: the arguments that `generate` adds itself are a parameter; hashes, the certificate authority and the package files are left out.
- LateBinding.LateBindingCommutes: assumes that late names are only inserted unfiltered and that no run of other output contains a delimiter; `PlaceholdersFoundIff` says that the second is exactly what finding the placeholders needs.
- MergeInPlace.MergeDictionaries: requires that no list or set object occurs twice in its arguments; a YAML document with anchors can share one, and then extending it under one key shows under the other (`SharedListShowsTwice`), so the result is not the merge of the values.
- MergeInPlace.MergeTemplates: of the scalars that Python takes for false one stands for all; copying a list that is the whole result is not modelled as a new object.
- Etcd.JoinRestores: `restore` of the backup tool, which writes "new" outside this protocol, and sessions that expire while their process goes on are not modelled; that the cluster finally forms is not stated.
- Cockroach.BootsAreBounded: starting and stopping the first CockroachDB instance is one opaque step that a crash can follow.
- Swap.Install.SwapActive: renames and the replacement of the progress file are atomic; systemd units are left out, and so is a second activation over a stale progress file.
- Storage.Providers.ApplyStorageCommands: a command takes effect as a whole or not at all; caching and content types are carried along but not stored.
- Rollback.Mover.DoMoveAtomic: where a file to copy is an existing directory, only one direction is stated (nothing tried was there before, so the tree is restored); an interrupt strikes at a command; the assertion on malformed file names, which would escape without a rollback, and an interrupt during the rollback are not modelled.
- `resolve_late_package` and `extract_files_containing_late_variables` only map the rendering of late content over files.
- `symlink_tree`, users, sysctl and unit staging in `Install.activate` are file system plumbing.
- `gen/calc.py`, cloud template generators, storage back ends, command lines and the web installer are left out.
