# SurgeBot core: verified model

SurgeBot is an IRC bot core with loadable modules. This project models, in Dafny, the algorithms and
state machines below its I/O and proves what they promise over all inputs and all runs:

- **Modules** (`Module*.dfy`): recursive loading with cycle detection, reverse dependencies and
  rollback; unloading what a new configuration no longer needs; reloading a module with everything
  that depends on it. A load succeeds exactly when some order of loading makes the module available;
  the passes of a configuration reload are enough; a reload takes down exactly the transitive
  dependents and, with unchanged files, ends with the modules it began with.
- **Access rules** (`Rule*.dfy`, `CommandRules.dfy`): the accepted texts and their tokens are described
  exactly, every layout of an expression among them; the evaluator computes the left-associative value,
  and a cached rule always answers like its text would with the functions registered now.
- **Database text** (`Database*.dfy`): the texts a database is read from are described exactly, with
  white space and comments anywhere between; reading what was written gives the tree back with siblings
  reversed at every level, so lookups are unchanged and two round trips are the identity; a path leads
  down key by key.
- **Glob matching** (`Glob.dfy`): remembering the last star only is complete.
- **Channels and users** (`ChanUser*.dfy`): the two-sided membership graph with its mutually
  recursive deletion, what every line does to it slot by slot, and the burst machine that defers and
  replays lines.
- **Loop and arithmetic cores**: SHA-1 (`Sha1*.dfy`, with the known digest of "abc"), natural order (`StrNat.dfy`), the dict
  (`Dict*.dfy`), timers (`Timers.dfy`), line framing (`Framing.dfy`, `Sock.dfy`), send throttle
  (`Throttle.dfy`) and leaky bucket (`Policer.dfy`).

Code that changes objects in place is modelled by classes, whose methods are proved against functions
on values; the properties are lemmas about those functions, by induction over runs where they are
about runs. `dafny verify dfyconfig.toml` checks everything.

What comes from outside is a parameter: the files a module can be loaded from (`disk`), the
configured module list (`conf`), what rule functions answer (`env`), what timer callbacks do (a
script of actions), the clock, the lines of the server and the reads of a socket.

## What the code does not keep

Expected properties that fail, with the exact condition under which they hold and an input at which
they do not:

- The burst counter is the number of unfinished bursts plus the number of times the bot joined a
  channel again in mid-burst: deleting a channel never counts down (`ChanUserRuns.HandleGap`,
  `ChanUserRuns.RunGap`, `ChanUserRuns.RejoinDriftsAndLoses`).
- Held-back lines of a channel are lost exactly when a waiting line but the last takes the channel
  away, or the bot joins it again while lines wait (`ChanUserRuns.LostIff`,
  `ChanUserRuns.RejoinDriftsAndLoses`, `ChanUserRuns.KickCutsReplay`). Applied at most once and in
  order they are in every run (`ChanUserRuns.RunFromStart`).
- A burst begins anew exactly by a JOIN of the bot, received, or waiting at the end of the burst when
  the bot has meanwhile taken that nick (`ChanUserRuns.BurstAdvances`,
  `ChanUserRuns.WaitingJoinRestarts`).
- Comparing nicks with channel prefixes is not antisymmetric for an operator against somebody without
  a prefix whose first character does not come after the prefix character
  (`StrNat.IrcAntisymmetricIff`, `StrNat.IrcAntisymmetricPlain`, `StrNat.IrcBothFirst`).
- The loop over complete blocks in SHA-1 wraps its 32-bit index round for some inputs within 63 bytes
  of 4 GB; `Sha1Stream.NoWrap` is the exact condition that it does not (`Sha1Stream.LoopIndex`,
  `Sha1Stream.WrapsPast`, `Sha1Stream.WrappingInput`).
- A function may be written without parentheses, but not wherever an expression could have it: with no
  opening parenthesis behind it, it is accepted exactly if nothing follows but white space and the
  closing parentheses that are due, so `f && true` is refused (`RuleSpelling.BareCallIff`,
  `RuleSpelling.BareCallText`, `RuleSpelling.BareCallRefused`). Otherwise the next opening parenthesis
  begins its argument, operators in between or not: `f &&(x)true` is read as `f(x) && true`
  (`RuleSpelling.LateArgument`, `RuleSpelling.LateInput`). White space may stand anywhere between tokens,
  but right behind a word no line end (`RuleSpelling.LineEndRefused`). `RuleLayout.TokenizeIff` says
  exactly which texts are accepted, and `RuleSpelling.TokenizeLayout` that every layout of an expression
  with the parentheses of its calls is.
- A bracketed comment of a database does not end at the first `*/`, but at the first slash behind an odd
  number of stars, so `/***/` is not closed (`DatabaseGrammar.SkipBlockIff`, `DatabaseGrammar.StarsInput`).
- A line that does not fit into the read buffer ends the connection: the buffer is full, the next read
  asks for no byte, and the none it returns is taken for a hangup. A stream can be read to its end,
  and then however it is cut there is room for the next read, exactly if no run without delimiters
  fills the buffer before the last byte (`Sock.FullIff`, `Sock.RoomyIff`, `Sock.FitsIff`,
  `Sock.Overlong`); `abcdef` in a buffer of five bytes does (`Sock.OverlongInput`).
- A read that fills the buffer and begins with delimiters can make the line loop take more bytes than
  are in use; `Sock.Broken` is the exact condition (`Sock.BrokenIff`, `Sock.BrokenInput`). After other
  reads that return bytes the lines are right (`Sock.Socket.Receive`, `Sock.HandledInput`). As long as
  no line is taken then, the string in the buffer goes on behind the bytes in use, exactly as
  `Sock.BehindIff` says; `read_func` is given the right length, but one that reads up to the
  terminator, as irc.c:404-411 does, sees the stale bytes if the connection is hung up at that point.

## Model

| member | source | states |
|---|---|---|
| `ModuleGraph.Add` | module.c:166-265 | loading a module never loses a loaded one, and ends: every nested load enters a new name among those with files |
| `ModuleGraph.Solve` | module.c:406-445 | looking at the dependencies never loses a loaded module, and ends |
| `ModuleGraph.AddCodes` | module.c:166-265 | what the return codes of a load say about its file |
| `ModuleInvariant.LoadingHasNoDependents` | module.c:420-435 | while a module is loading, nothing depends on it |
| `ModuleInvariant.EnterKeeps` | module.c:166-265 | entering a new module as loading keeps the invariant: reverse dependencies are exactly the processed part of the dependencies, active modules depend on active ones, and activation order is acyclic |
| `ModuleInvariant.SkipKeeps` | module.c:414-418 | skipping a self-dependency keeps it |
| `ModuleInvariant.LinkKeeps` | module.c:425-436 | recording the dependent of an active module keeps it |
| `ModuleInvariant.ActivateKeeps` | module.c:166-265 | a module with all dependencies processed can become active |
| `ModuleInvariant.UnloadKeeps` | module.c:344-404 | releasing and freeing a module nothing depends on keeps it, for a deletion and for the rollback of a failed load |
| `ModuleInvariant.TimesStrike` | module.c:380-387 | deleting at an index while the last element fills the gap, and looking there again, removes exactly the occurrences of one name |
| `ModuleInvariant.AddKeeps` | module.c:166-265 | every load, failed or not, at every depth of the recursion, keeps the invariant and the progress of the outer loads; the module is loaded exactly if the result is 0 |
| `ModuleInvariant.SolveKeeps` | module.c:406-445 | so does solving dependencies, failures included |
| `ModuleLoadable.AddMakes` | module.c:166-265 | whatever a load leaves behind, failures included, could have been loaded in some order with nothing else |
| `ModuleLoadable.AddSucceeds` | module.c:166-265 | if some order of loading makes a module available, the depth-first load with its loop check succeeds |
| `ModuleLoadable.AddExact` | module.c:166-265 | a load succeeds exactly for loadable modules, and changes nothing about what else is loadable |
| `ModuleLoadable.LoadableUnchanged` | module.c:432-441 | loads in some order leave the loadable modules the same |
| `ModuleUnload.PathRank` | module.c:332-342 | along dependencies the activation number falls |
| `ModuleUnload.NoProcessedCycle` | module.c:420-436 | in every state the invariant holds of, in the middle of nested loads, too, no module depends on itself through dependencies looked at so far |
| `ModuleUnload.NoCycle` | module.c:420-424 | no module depends on itself through others |
| `ModuleUnload.UnloadNeeded` | module.c:100-101 | unloading something unneeded changes nothing about what is needed |
| `ModuleUnload.PruneKeeps` | module.c:94-102 | an unload pass keeps the invariant and every needed module |
| `ModuleUnload.PruneProgress` | module.c:94-102 | a pass unloads what nothing depended on when it began |
| `ModuleUnload.PruneSettled` | module.c:94-102 | a pass with nothing to unload changes nothing |
| `ModuleUnload.SettledIsNeeded` | module.c:91-103 | when nothing can be unloaded any more, what is left is needed by a configured module |
| `ModuleUnload.SomethingIdle` | module.c:56-67 | as long as modules are loaded, one of them has no dependents |
| `ModuleUnload.GroupHasIdle` | module.c:308-319 | in a group closed under dependents, one member can always be unloaded next |
| `ModuleUnload.LoadableAgain` | module.c:321-325 | with unchanged files, every unloaded module of the group can be loaded again |
| `ModuleUnload.AddStaysWithin` | module.c:406-445 | loading stays inside every set of names closed under the dependencies on disk |
| `ModuleUnload.AddConsistent` | module.c:166-265 | a load from a state at rest ends in one, and succeeds exactly for loadable modules |
| `ModuleUnload.AddAllExact` | module.c:87-88 | after the configured list, a listed module is loaded exactly if it was or could be |
| `ModuleManager.Manager.Find` | module.c:111-125 | finds the object of a loaded module, and nothing for others |
| `ModuleManager.Manager.StrikeDependent` | module.c:380-387 | the loop that deletes and stays is the removal `ModuleInvariant.TimesStrike` is about |
| `ModuleManager.Manager.ReleaseDependencies` | module.c:372-390 | the objects change as the release of the graph says |
| `ModuleManager.Manager.Free` | module.c:392-404 | exactly one module leaves the list |
| `ModuleManager.Manager.Discard` | module.c:365-368 | release and free together, in place |
| `ModuleManager.Manager.ModuleAdd` | module.c:166-265 | the recursive load on objects is the load of the graph, state and result |
| `ModuleManager.Manager.SolveDependencies` | module.c:406-445 | the loop over dependencies on objects is that of the graph |
| `ModuleManager.Manager.AddListed` | module.c:87-88 | the loads of a configured list, in order |
| `ModuleManager.Manager.ModuleDel` | module.c:344-370 | -1 exactly for a loaded module with dependents; otherwise a loaded module goes, and nothing else changes |
| `ModuleManager.Manager.UnloadPass` | module.c:94-102 | the walk from the tail, which deletes while it walks, is one pass over the names in reverse order |
| `ModuleManager.PassStep` | module.c:91-103 | each pass either had nothing to do or leaves fewer modules |
| `ModuleManager.Manager.Fini` | module.c:52-74 | the outer loop ends, with no module loaded |
| `ModuleManager.Manager.ConfReload` | module.c:76-104 | afterwards the loaded modules are exactly those loaded after the additions that a configured module needs |
| `ModuleManager.Manager.GetRdeps` | module.c:332-342 | adds exactly the direct and indirect dependents, each once, and ends |
| `ModuleManager.Manager.ReloadGroup` | module.c:304-306 | the module and its transitive dependents |
| `ModuleManager.Manager.UnloadGroup` | module.c:308-319 | the loop ends, having unloaded exactly the group |
| `ModuleManager.Manager.LoadGroup` | module.c:321-325 | a member of the group is loaded afterwards exactly if it was loadable; 0 exactly if all are |
| `ModuleManager.Manager.Reload` | module.c:291-330 | unloads exactly the module and its transitive dependents, loads again exactly the loadable ones; with unchanged files the loaded set is what it was |
| `ModuleManager.ReloadSame` | module.c:291-330 | with unchanged files nothing is missing and nothing is new after a reload |
| `Glob.Match` | tools.c:230-284 | 0 exactly when the declarative meaning of the mask accepts the name; ends, and stays inside both strings |
| `Glob.SkipWildcards` | tools.c:252-260 | a run of wildcards consumed at once means the same from its end |
| `Glob.ScanTo` | tools.c:261-273 | no position skipped could have matched |
| `Glob.Round` | tools.c:236-283 | one round keeps the answer, with a later last star or progress in the mask |
| `Glob.Literal` | tools.c:275-282 | a literal fits, decides, or sends back to the last star, without changing the answer |
| `Glob.AttemptCovers` | tools.c:240-245 | any match that places the stretch since the last star further right leads to one for the rest of the mask: earlier stars need not be remembered |
| `Glob.StretchFixed` | tools.c:275-282 | a starless stretch takes as many characters as it has |
| `Glob.NameExhausted` | tools.c:276-277 | with the name used up and a literal to come, no later attempt can succeed |
| `RuleGrammar.GrammaticalIsExpr` | modules/parser/parser.c:97-273 | a token list with the right neighbours, balance and end is the spelling of an expression |
| `RuleGrammar.GrammaticalIffExpr` | modules/parser/parser.c:97-273 | those lists are exactly the spellings of expressions |
| `RuleTokenizer.StepKeeps` | modules/parser/parser.c:97-273 | every step keeps neighbours, nesting and the pending function argument right, with one counter for both kinds of parentheses |
| `RuleTokenizer.TokenizeGrammatical` | modules/parser/parser.c:97-273 | every accepted text is the spelling of an expression, or empty |
| `RuleTokenizer.TokenizeRegistered` | modules/parser/parser.c:97-273 | accepted tokens name registered functions only |
| `RuleTokenizer.TokenizeMonotone` | modules/parser/parser.c:97-273 | registering more functions does not change what an accepted text means |
| `RuleTokenizer.ParserTokenize` | modules/parser/parser.c:97-273 | the loop with its variables is the tokenizer those lemmas are about |
| `RuleLayout.TokenizeIff` | modules/parser/parser.c:97-273 | a text turns into a list of tokens exactly if it is made of signs, literals in any letter case, names of registered functions and parenthesized arguments, with white space anywhere between, that yield this list, and the list is grammatical |
| `RuleLayout.ReadBody` | modules/parser/parser.c:130-170 | an argument goes up to the next parenthesis, which closes it |
| `RuleLayout.GrownTrims` | modules/parser/parser.c:145-170 | what is taken of it is the argument without the white space around it |
| `RuleSpelling.TokenizeLayout` | modules/parser/parser.c:97-273 | every expression whose calls can be written is read from every layout: white space before, between and behind its tokens and around arguments, literals in any letter case |
| `RuleSpelling.TokenizeComplete` | modules/parser/parser.c:97-273 | the plain layout, without white space, is one of them |
| `RuleSpelling.TokenizeWritable` | modules/parser/parser.c:111-256 | the calls in an accepted text have the name of a registered function, no literal, and an argument without parentheses or white space around it |
| `RuleSpelling.TokenizableIff` | modules/parser/parser.c:97-273 | the tokens of accepted texts are exactly the spellings of expressions whose calls can be written, and the empty list |
| `RuleSpelling.LineEndRefused` | modules/parser/parser.c:220-246 | a text with a line end right behind a literal, which is refused |
| `RuleSpelling.BareCallIff` | modules/parser/parser.c:217-256 | with a function waiting for its parentheses and no opening one to come, exactly white space and the closing ones that are due may follow |
| `RuleSpelling.BareCallText` | modules/parser/parser.c:217-256 | for texts that begin with such a function |
| `RuleSpelling.BareCallRefused` | modules/parser/parser.c:251-256 | a refused text whose tokens another text has |
| `RuleSpelling.LateArgument` | modules/parser/parser.c:113-137 | the next opening parenthesis begins the argument of a waiting function, whatever is in between |
| `RuleSpelling.LateInput` | modules/parser/parser.c:113-137 | a text whose parentheses behind an operator belong to the function in front of it |
| `RuleEval.Run` | modules/parser/parser.c:319-423 | the shared position stays inside the list and only goes forward |
| `RuleEval.RunExpr` | modules/parser/parser.c:319-423 | over the tokens of an expression the loop computes its value, with partial short-circuit |
| `RuleEval.NestedStops` | modules/parser/parser.c:347-358 | a nested call stops just past its matching parenthesis |
| `RuleEval.ExecuteExpr` | modules/parser/parser.c:312-317 | the tokens of an expression give its three-valued value, -4 for no answer |
| `RuleEval.ExecuteDenotes` | modules/parser/parser.c:293-305 | with functions that always answer: the left-associative, precedence-free denotation |
| `RuleEval.ValueSound` | modules/parser/parser.c:319-423 | an answer is the denotation in every world that answers as the functions that were called and gave an answer, whatever it says about failed and skipped ones |
| `RuleEval.ValueCallsOnly` | modules/parser/parser.c:367-376 | the value and the calls themselves depend on the calls that are made only |
| `RuleEval.ShortCircuit` | modules/parser/parser.c:367-376 | a function right behind an operator that is decided is not called, and everything else is; without an answer there is none |
| `RuleEval.ValueTotal` | modules/parser/parser.c:319-423 | with functions that always answer there is an answer |
| `RuleEval.ExecuteIndependent` | modules/parser/parser.c:293-305 | a 0 or 1 is the denotation in every such world |
| `RuleEval.ExecuteCallsOnly` | modules/parser/parser.c:312-376 | execution depends on the calls that are made, and on no other function |
| `RuleEval.ExecuteRecursive` | modules/parser/parser.c:319-423 | the recursive method with its shared position computes what the lemmas are about |
| `RuleEval.ParserExecute` | modules/parser/parser.c:312-317 | the value of the expression the tokens spell |
| `CommandRules.JudgeMeans` | modules/commands/command_rule.c:134-162 | an accepted rule has an expression, and the verdict is its value |
| `CommandRules.JudgeNothing` | modules/commands/command_rule.c:134-162 | no verdict on texts that are refused or hold no token |
| `CommandRules.JudgeCallsRegistered` | modules/commands/command_rule.c:134-162 | verdicts depend on registered functions only |
| `CommandRules.RuleBook.Reg` | modules/commands/command_rule.c:53-59 | a new name is added in lower case, and every cached rule stays what its text tokenizes to |
| `CommandRules.RuleBook.Unreg` | modules/commands/command_rule.c:61-77 | the function goes, and no cached rule refers to it |
| `CommandRules.RuleBook.Validate` | modules/commands/command_rule.c:79-91 | exactly the texts the tokenizer accepts |
| `CommandRules.RuleBook.Compile` | modules/commands/command_rule.c:93-105 | the text is kept under a new index, whether it compiles or not |
| `CommandRules.RuleBook.Get` | modules/commands/command_rule.c:107-117 | the rule of a live index, nothing otherwise |
| `CommandRules.RuleBook.Executable` | modules/commands/command_rule.c:119-132 | exactly if the text tokenizes with the functions of now |
| `CommandRules.RuleBook.Exec` | modules/commands/command_rule.c:134-162 | the verdict of the text with the functions registered now, whatever the cache went through |
| `CommandRules.RuleBook.Free` | modules/commands/command_rule.c:164-175 | exactly the rule of a live index goes, though the last rule changes place |
| `DatabaseFormat.Reread` | database.c:395-444 | a character pushed back is the next one read |
| `DatabaseRoundTrip.ReadEscaped` | database.c:446-494 | reading undoes the escapes of the writer |
| `DatabaseRoundTrip.ReadQuoted` | database.c:446-494 | a written string is read back whole |
| `DatabaseRoundTrip.ReadPrintedItems` | database.c:496-531 | a written string list is read back in order |
| `DatabaseRoundTrip.ReadPrintedRecord` | database.c:568-633 | a written record is read back, its object with siblings reversed |
| `DatabaseRoundTrip.ReadPrintedEntries` | database.c:533-566 | the records of an object come back in reverse order, up to the closing brace |
| `DatabaseRoundTrip.RoundTrip` | database.c:203-260 | reading what was written never fails, and gives the tree reversed at every level |
| `DatabaseRoundTrip.ReversedTwice` | dict.c:26-45 | reversing twice gives the tree back |
| `DatabaseRoundTrip.TwoRoundTrips` | database.c:741-837 | writing and reading twice is the identity |
| `DatabaseFormat.WrittenStrings` | database.c:741-761 | the escapes of the writer |
| `DatabaseFormat.WrittenObject` | database.c:763-837 | an object with its line ends and indentation |
| `DatabaseGrammar.SkipBlockIff` | database.c:419-434 | a bracketed comment ends at the first slash behind an odd number of stars |
| `DatabaseGrammar.StarsInput` | database.c:419-434 | a comment that is not closed for that reason |
| `DatabaseGrammar.CommentSkips` | database.c:411-435 | a comment of either kind reads like white space |
| `DatabaseGrammar.ValidCharIff` | database.c:396-445 | the next character is the one behind white space and comments; none exactly if nothing else is left |
| `DatabaseGrammar.ReadCharsIff` | database.c:460-491 | the rest of a string is read exactly where there is one: characters as they are or behind a backslash, a closing quote or the end of the text |
| `DatabaseGrammar.ReadItemsIff` | database.c:499-530 | a list is read exactly where there is one, with white space and comments anywhere between, and perhaps a comma behind the last item |
| `DatabaseGrammar.ReadAllIff` | database.c:245-322 | a text is read as a tree exactly if it holds its records, with or without equals signs, and white space and comments anywhere between |
| `DatabaseGrammar.FileOrError` | database.c:251-293 | where reading fails there is no database |
| `DatabaseGrammar.AllBehind` | database.c:396-445 | white space and comments in front of what is left make no difference |
| `DatabaseGrammar.WrittenFile` | database.c:741-837 | what the writer has written is such a text |
| `DatabasePath.WalkElement` | database.c:124-168 | up to the next slash a path is one key, behind which the walk goes on in the object found |
| `DatabasePath.FetchStep` | database.c:124-168 | the first key of a path, and the path from there in its object |
| `DatabasePath.FetchReaches` | database.c:124-168 | a path leads to the node reached by going down key by key, and nowhere exactly if a key is missing or leads to no object before the last one; a slash at either end does not count |
| `DatabasePath.FetchNothing` | database.c:124-168 | no key is no path |
| `DatabaseFetch.LookupReversed` | database.c:124-168 | with unique keys a lookup does not see the order of siblings |
| `DatabaseFetch.WalkReversed` | database.c:124-168 | nor does a walk along a path |
| `DatabaseFetch.FetchAfterRoundTrip` | database.c:124-168 | after a round trip every path leads to what it led to before |
| `DatabaseFetch.DatabaseFetchPath` | database.c:124-168 | the loop over the path is the walk those lemmas are about |
| `Database.Reader.Getc` | database.c:341-368 | one character, or the end |
| `Database.Reader.Ungetc` | database.c:370-393 | the text is unchanged by pushing the last character back into the map |
| `Database.Reader.NextChar` | database.c:395-444 | skips white space and comments |
| `Database.Reader.ReadStr` | database.c:446-494 | one quoted string, or an error |
| `Database.Reader.ReadStrs` | database.c:496-531 | one string list, or an error |
| `Database.Reader.ReadObject` | database.c:533-566 | one object, records put in front of the ones before |
| `Database.Reader.ReadEntry` | database.c:568-633 | one record, or an error |
| `Database.Reader.Read` | database.c:203-260 | the whole file |
| `Database.Writer.WriteIndent` | database.c:734-740 | as many tabs as the depth |
| `Database.Writer.WriteQuotedString` | database.c:741-761 | the escaped string in quotes |
| `Database.Writer.BeginObject` | database.c:763-769 | the head of an object, one level deeper |
| `Database.Writer.EndObject` | database.c:771-776 | its end, one level up |
| `Database.Writer.WriteString` | database.c:785-792 | a string record |
| `Database.Writer.WriteStringlist` | database.c:794-807 | a string list record |
| `Database.Writer.WriteObject` | database.c:809-837 | the text of the whole subtree that the round trip is about |
| `DictSearch.FindExact` | dict.c:47-66 | the search from both ends finds a node exactly if one has the key |
| `DictSearch.FindUnique` | dict.c:47-66 | with unique keys it finds that node |
| `Dict.Dict.Insert` | dict.c:26-45 | a new head in a well-formed list |
| `Dict.Dict.FindNode` | dict.c:47-66 | a node with the key if there is one, else nothing |
| `Dict.Dict.DeleteNode` | dict.c:74-102 | the node leaves a well-formed list, its own links stay readable until the next deletion |
| `Dict.Dict.Clear` | dict.c:124-128 | ends with an empty list |
| `Dict.Dict.Visit` | dict.h:43 | the link of the current node is good after the body deleted it or not |
| `Dict.Dict.Iterate` | dict.h:43 | a loop whose body deletes at most the current node, as it likes in each round, visits every original node once, in order, and reads no freed node |
| `Timers.PatternLaws` | timer.c:74-79 | what a pattern with some fields ignored is for |
| `Timers.SparedExactly` | timer.c:67-95 | a deletion keeps exactly the timers that do not match |
| `Timers.TimerList.TimerAdd` | timer.c:18-36 | a new timer in front, with a new id |
| `Timers.TimerList.TimerDel` | timer.c:67-95 | exactly the waiting timers that match go |
| `Timers.TimerList.RunCallback` | timer.c:97-122 | a callback that adds and deletes leaves the running timer in place, thins out what comes after it, and does exactly what its actions say |
| `Timers.TimerList.Fire` | timer.c:97-122 | one due timer fires once and goes, its callback is carried out, and the walk goes on at the next one alive |
| `Timers.TimerList.TimerPoll` | timer.c:97-122 | a timer due at the start fires exactly once unless deleted before its turn, in list order; others do not fire; new ones wait; the list left behind is the old one with the callbacks of the fired timers carried out one after the other; timers given out stay partitioned into pending, fired and deleted |
| `ChanUserModel.EffectBursts` | chanuser_irc.c:149-512 | which lines begin, advance and end bursts, and that all others leave them alone |
| `ChanUserModel.StepShape` | chanuser_irc.c:47-61 | a line touches the queue and the burst of its own channel only |
| `ChanUserMeaning.EffectMeans` | chanuser_irc.c:149-512 | what every line that is not held back does to memberships, flags and users, slot by slot |
| `ChanUserMeaning.LeaveGoes` | chanuser.c:280-299 | exactly the one membership goes, and its user unless it is on another channel |
| `ChanUserMeaning.DropChannelEnds` | chanuser.c:87-111 | exactly the memberships of the channel go, with the users that were nowhere else |
| `ChanUserMeaning.RenameMoves` | chanuser.c:223-246 | every membership of the old nick stands under the new one, with its flags |
| `ChanUserMeaning.SetModesChange` | chanuser_irc.c:63-147 | every flag is what the last change to it says, or what it was |
| `ChanUserMeaning.EnterAllComes` | chanuser_irc.c:416-453 | exactly those named are on the channel, with the flags given last |
| `ChanUserMeaning.HandleMeans` | chanuser_irc.c:30-61 | every line waits behind the others of its channel, or goes through and does what it means, or ends a burst, upon which the waiting lines go through one after the other |
| `ChanUserRuns.DropChannelLinked` | chanuser.c:87-111 | deleting a channel leaves no user without channels but the bot, and no membership of the channel |
| `ChanUserRuns.EnterLinked` | chanuser.c:250-273 | nor does joining |
| `ChanUserRuns.LeaveLinked` | chanuser.c:280-299 | nor does leaving with the check for dead users, or the bot without it |
| `ChanUserRuns.DropUserLinked` | chanuser.c:201-221 | nor does quitting |
| `ChanUserRuns.RenameLinked` | chanuser.c:223-246 | nor does a new nick that is free |
| `ChanUserRuns.EffectLinked` | chanuser_irc.c:149-512 | every line that goes through keeps memberships between tracked channels and users, and every user but the bot on some channel |
| `ChanUserRuns.ReplayMeans` | chanuser_irc.c:337-346 | the replay loop, which looks the channel up each time, puts the waiting lines through in order up to the first that takes the channel away; none waits again |
| `ChanUserRuns.UntilCut` | chanuser_irc.c:337-346 | nothing is cut off exactly if no line but the last takes the channel away |
| `ChanUserRuns.HandleKeeps` | chanuser_irc.c:30-45 | every line keeps graph and queues consistent |
| `ChanUserRuns.EndOfBurst` | chanuser_irc.c:324-371 | the end of a burst amounts to the waiting lines one after the other |
| `ChanUserRuns.HandleGap` | chanuser_irc.c:324-371 | the counter follows the number of unfinished bursts, except for a repeated JOIN of the bot in mid-burst |
| `ChanUserRuns.BurstAdvances` | chanuser_irc.c:373-512 | where the burst of a tracked channel stands after any line: never more than one stage further, and back at the first stage exactly by an own JOIN, received or waiting at the end of the burst |
| `ChanUserRuns.ReplayRestarts` | chanuser_irc.c:337-346 | a replay that leaves the channel tracked ends in a new burst exactly if a JOIN of the bot waited |
| `ChanUserRuns.LostIff` | chanuser_irc.c:324-371 | exactly when a line loses held-back ones |
| `ChanUserRuns.HandleConserves` | chanuser_irc.c:47-61 | after every line, what went through and what waits is what had gone through, what waited without what is lost, and the new line: in order, nothing twice |
| `ChanUserRuns.RunKeeps` | chanuser_irc.c:30-45 | every run of lines keeps everything consistent |
| `ChanUserRuns.RunGap` | chanuser_irc.c:324-371 | over a run the counter drifts by the number of repeated JOINs |
| `ChanUserRuns.RunConserves` | chanuser_irc.c:47-61 | over every run, losses included, what went through and what waits is taken from what arrived, in order of arrival; as many lines are missing as were lost |
| `ChanUserRuns.RunFromStart` | chanuser_irc.c:30-45 | for every run from the start: consistency, the counter, and every held-back line applied at most once and in order; all of them exactly if nothing was lost |
| `ChanUserRuns.KickCutsReplay` | chanuser_irc.c:337-346 | a replayed KICK of the bot, and the line behind it that is lost |
| `ChanUserRuns.RejoinDriftsAndLoses` | chanuser.c:47-74 | the bot joins, is kicked and joins again in mid-burst: the counter is one too high, and the KICK that waited is lost |
| `ChanUserRuns.WaitingJoinRestarts` | chanuser_irc.c:324-371 | a run in which a user that waits to join quits, the bot takes its nick, and the end of the burst begins it anew |
| `ChanUser.Tracker.ChannelUserDel` | chanuser.c:280-299 | one membership leaves both dicts; a user goes exactly if it was nowhere else and that is checked; ends, though it calls `user_del` |
| `ChanUser.Tracker.UserDel` | chanuser.c:201-221 | the user leaves all its channels and the dict; ends, though it calls `channel_user_del` |
| `ChanUser.Tracker.ChannelDel` | chanuser.c:87-111 | all memberships of the channel go, with exactly the users that were nowhere else |
| `ChanUser.Tracker.ChannelAdd` | chanuser.c:47-74 | a tracked channel is deleted first; the new one is empty, and its burst counts |
| `ChanUser.Tracker.UserAddNick` | chanuser.c:158-176 | a tracked user is deleted first; the new one is on no channel |
| `ChanUser.Tracker.ChannelUserAdd` | chanuser.c:250-273 | the membership hangs in both dicts and points back, or only its flags change |
| `ChanUser.Tracker.UserRename` | chanuser.c:223-246 | every channel files the same membership objects under the new nick |
| `ChanUser.Tracker.ChanuserFlush` | chanuser.c:32-38 | both loops end, with nothing tracked |
| `ChanUser.Tracker.Unlink` | chanuser.c:287-289 | the same membership leaves both sides |
| `ChanUser.Tracker.Link` | chanuser.c:261-270 | a new membership on both sides |
| `ChanUserIrc.Session.CheckBurst` | chanuser_irc.c:47-61 | a line is held back exactly while its channel's burst goes on |
| `ChanUserIrc.Session.Join` | chanuser_irc.c:149-177 | the objects change as the JOIN of the model says |
| `ChanUserIrc.Session.Part` | chanuser_irc.c:179-208 | likewise for PART |
| `ChanUserIrc.Session.Kick` | chanuser_irc.c:210-239 | likewise for KICK |
| `ChanUserIrc.Session.ChangeNick` | chanuser_irc.c:241-261 | likewise for NICK, with a nick that is free |
| `ChanUserIrc.Session.Quit` | chanuser_irc.c:263-271 | likewise for QUIT |
| `ChanUserIrc.Session.Mode` | chanuser_irc.c:273-292 | likewise for MODE, operator and voice changes |
| `ChanUserIrc.Session.SetModes` | chanuser_irc.c:63-147 | the changes in order, unknown users skipped |
| `ChanUserIrc.Session.Topic` | chanuser_irc.c:294-305 | held back like the others |
| `ChanUserIrc.Session.NameReply` | chanuser_irc.c:416-453 | every named user is on the channel with its flags |
| `ChanUserIrc.Session.EndOfNames` | chanuser_irc.c:472-484 | the burst goes from names to modes |
| `ChanUserIrc.Session.ChannelModeIs` | chanuser_irc.c:373-393 | from modes to bans |
| `ChanUserIrc.Session.EndOfBanList` | chanuser_irc.c:497-512 | from bans to who |
| `ChanUserIrc.Session.ReplayLines` | chanuser_irc.c:335-346 | the loop over the waiting lines of a channel that may go or come back is the replay of the model |
| `ChanUserIrc.Session.EndBurst` | chanuser_irc.c:324-371 | the end of a burst, with replay, as in the model |
| `ChanUserIrc.Session.HandleLine` | chanuser_irc.c:30-45 | every line changes the objects as in the model, waits or does what it means, and keeps them consistent |
| `ChanUserIrc.Session.Reconnect` | irc.c:215-239 | nothing is tracked any more, and the counter is right again |
| `StrNat.LeftLaws` | strnatcmp.c:95-114 | left-aligned comparison is antisymmetric, and 0 for equal runs only |
| `StrNat.RunsByValue` | strnatcmp.c:65-92 | numbers without leading zeros compare by value |
| `StrNat.TokenLaws` | strnatcmp.c:146-173 | so is the comparison of keys, digits against other characters included |
| `StrNat.TokenTransitive` | strnatcmp.c:146-173 | and it is transitive, runs with and without leading zero mixed |
| `StrNat.NatLaws` | strnatcmp.c:117-179 | turning the comparison round turns the result round; 0 exactly for the same keys |
| `StrNat.NatTransitive` | strnatcmp.c:117-179 | the comparison is transitive, strictly so if one side is strict |
| `StrNat.CompareRight` | strnatcmp.c:65-92 | the longer run wins, else the first difference |
| `StrNat.CompareLeft` | strnatcmp.c:95-114 | the first difference wins, a prefix comes first |
| `StrNat.OrderStep` | strnatcmp.c:146-176 | going on one character into two equal runs leaves the answer the same |
| `StrNat.StrNatCmp` | strnatcmp.c:117-179 | the result is the lexicographic comparison of the keys |
| `StrNat.StrNatCmp0` | strnatcmp.c:117-179 | the same, after the prefixes if asked for |
| `StrNat.PrefixTable` | strnatcmp.c:126-132 | what the prefixes alone decide |
| `StrNat.AfterOpIff` | strnatcmp.c:117-179 | when somebody naturally comes after an operator, in terms of the first characters, leading blanks included |
| `StrNat.IrcAntisymmetricIff` | strnatcmp.c:126-132 | comparing with prefixes can be turned round except for an operator against somebody without a prefix whose first character is not after the prefix character |
| `StrNat.IrcAntisymmetricPlain` | strnatcmp.c:126-132 | without a leading blank it is one character compared with the prefix |
| `StrNat.IrcBothFirst` | strnatcmp.c:126-132 | two nicks that each come before the other |
| `Sha1Spec.ZeroCountSmallest` | sha1.c:117-119 | the padding is the shortest that fits (FIPS 180-4, section 5.1.1) |
| `Sha1Values.WordOfNumber` | sha1.c:249-256 | of the four bytes of a word the first counts most |
| `Sha1Values.BytesOfWord` | sha1.c:237-256 | taking a word apart and putting it together undo each other |
| `Sha1Values.RotlBit` | sha1.c:23 | a rotation takes every bit up by its distance, for all distances |
| `Sha1Values.RotlWord` | sha1.c:23 | the three distances that are used, in the arithmetic of words |
| `Sha1Values.ChooseBits` | sha1.c:16-19 | the logical functions bit by bit (FIPS 180-4, section 4.1.1) |
| `Sha1Values.MajorityBits` | sha1.c:16-19 | likewise |
| `Sha1Values.ParityBits` | sha1.c:16-19 | likewise |
| `Sha1Values.ConstantRoots` | sha1.c:32-51 | the constants are the integer parts of 2^30 times the square roots of 2, 3, 5 and 10 |
| `Sha1Values.InitialBytes` | sha1.c:54-63 | the bytes of the initial state count all hexadecimal digits up and down |
| `Sha1Example.DigestOfAbc` | sha1.c:1-130 | the digest of "abc" is the one FIPS 180-4 gives |
| `Sha1Transform.ShortForms` | sha1.c:16-19 | the two short forms are the functions of FIPS 180-4, section 4.1.1 |
| `Sha1Transform.W` | sha1.c:27-28 | the ring of sixteen words gives the next word of the 80-word schedule and keeps the last sixteen |
| `Sha1Transform.Step` | sha1.c:32-51 | one macro line is one round of section 6.1.2 with registers renamed |
| `Sha1Transform.Decode` | sha1.c:249-256 | the block as big-endian words |
| `Sha1Transform.Encode` | sha1.c:237-247 | the state as big-endian bytes |
| `Sha1Transform.Transform` | sha1.c:132-235 | the renamed registers and the ring compute the compression of section 6.1.2 |
| `Sha1Stream.CountUp` | sha1.c:72-76 | two 32-bit words with carry hold the bit length modulo 2^64 |
| `Sha1Stream.CountIndex` | sha1.c:69-70 | the low word tells how full the buffer is |
| `Sha1Stream.LoopIndex` | sha1.c:87-88 | the loop goes on exactly as long as there is a complete block |
| `Sha1Stream.WrapsPast` | sha1.c:87-88 | for inputs next to 4 GB its index wraps round behind the last block |
| `Sha1Stream.WrappingInput` | sha1.c:87-88 | a buffer fill and an input length for which the index wraps round |
| `Sha1Stream.Context.constructor` | sha1.c:54-63 | the initial state, nothing put in |
| `Sha1Stream.Context.Update` | sha1.c:65-98 | the context stands for the input so far followed by the new one |
| `Sha1Stream.BitsAre` | sha1.c:105-113 | the saved counter is the 64-bit length of the padding |
| `Sha1Stream.Context.Final` | sha1.c:100-130 | the FIPS 180-4 digest of all input; state, counters and buffer are cleared |
| `Sha1Stream.HashChunks` | sha1.c:54-130 | however a message is cut into inputs that do not wrap the index round, the digest is that of the whole |
| `Framing.CutsExact` | sock.c:1003-1018 | the lines are exactly the maximal non-empty parts without delimiters that one follows, in order |
| `Framing.LinesAreCuts` | sock.c:1003-1018 | and their texts |
| `Framing.LinesAppend` | sock.c:998-1019 | of the stream so far only the unfinished line matters |
| `Sock.Socket.SkipDelims` | sock.c:1003-1007 | delimiters in front go; a full buffer goes on behind its bytes in use with its own last bytes once more |
| `Sock.Socket.TakeLines` | sock.c:1009-1018 | the loop hands over all complete lines in order and keeps the rest, whatever is behind the bytes in use, as long as its first round stays inside them |
| `Sock.Socket.Receive` | sock.c:998-1019 | after every read that returns bytes and does not break the buffer, the lines handed over are those of the stream so far and the bytes in use are what is left; what the string in the buffer goes on with |
| `Sock.Socket.ReadEvent` | sock.c:992-1019 | a read that returns bytes is framed; one that returns none, as with a full buffer it must, hands over what is left and closes the socket |
| `Sock.Socket.Hangup` | sock.c:992-997 | what is left is handed over once, though the buffer is flushed twice |
| `Sock.Socket.FlushReadbuf` | sock.c:1148-1156 | the rest is handed over and forgotten |
| `Sock.ReadAll` | sock.c:992-1019 | however the stream is cut into reads that return bytes, fit and do not break the buffer, the lines are those of the whole stream, and the rest comes last |
| `Sock.FullIff` | sock.c:970-1019 | a read leaves the buffer full exactly if it filled it and there is no delimiter in it |
| `Sock.RoomyIff` | sock.c:970 | wherever reads end there is room for the next one, exactly if no run without delimiters fills the buffer before the last byte |
| `Sock.FitsIff` | sock.c:970-997 | exactly those streams can be read to their end |
| `Sock.Overlong` | sock.c:970-997 | a stream whose first line is longer than the buffer is never read to its end |
| `Sock.OverlongInput` | sock.c:970-997 | a line of six bytes and a buffer of five |
| `Sock.BrokenIff` | sock.c:1003-1017 | the loop takes more bytes than are in use, so that their number wraps round, exactly when the buffer is full and begins with delimiters, holds one line or part of one, and has a delimiter as far from its end as it has in front |
| `Sock.BehindIff` | sock.c:1003-1007 | exactly when the string goes on behind the bytes in use after the loop |
| `Sock.BrokenInput` | sock.c:1003-1017 | a broken buffer of seven bytes, of which the loop takes seven of five in use |
| `Sock.HandledInput` | sock.c:1003-1017 | a full buffer that begins with delimiters and is handled |
| `Throttle.PenaltyIs` | irc.c:326-332 | a line counts for two seconds, and one more for every 120 characters |
| `Throttle.KeptSend` | irc.c:326-332 | `last_msg` is the latest time at which what went out since some line is used up |
| `Throttle.BoundedSend` | irc.c:326-332 | every line sent keeps all stretches below the bound |
| `Throttle.Window` | irc.c:312-336 | in any T seconds less than T + 10 + the largest penalty goes out |
| `Throttle.SendQueue.Poll` | irc.c:312-336 | lines leave in order of arrival, none is lost, and the next one waits only if some stretch has its full measure |
| `Policer.RequestComes` | policer.c:37-46 | the level is the most any stretch of requests has left, whatever the times and the drain rate |
| `Policer.PolicerState.Conforms` | policer.c:37-46 | a request conforms exactly if every stretch of requests before it, conforming or not, has left room |
| `Policer.Window` | policer.c:37-46 | requests up to a conforming one weigh less than bucket, drain and its own weight together |
| `Policer.ConformingWindow` | policer.c:37-46 | over every run, the conforming requests of any T seconds weigh less than bucket, drain in T and the largest of them |

## Left out

- Sockets, `poll`, SSL, `dlopen`, files, logging, SQL and HTTP clients, JSON, command dispatch, help,
  channel registration, feature modules and tables: foreign calls, plumbing, or single checks.
- Module aliases (`name:lib`) and spellings of a name that differ in case: one spelling per name.
  Init and fini callbacks and hooks do not touch the module list.
- Glob.Match: masks whose escapes come before the first wildcard. An escape after a wildcard is not
  matched by the source as an escape: an escaped mismatch returns at once, an escaped character
  scanned for after a star is read again as a wildcard, and a backslash right after `?` is taken
  literally. A mask that ends in a lone backslash is left out, too: the source steps past its
  terminator there.
- Error texts and positions of the rule parser; rule functions are an environment that answers the
  same for the same argument within one execution.
- Database.Reader.NextChar: the end of the file is kept apart from a byte 0xFF outside a string,
  which the source takes for the end. Line counters, cleanup after errors, `database_write_long` and
  reading from a stream instead of a map are not part of the model.
- Dict: functions that free keys and data, renaming keys and copying.
- Dict.Dict.DeleteNode: the key and the data of the deleted node stay readable, where the source sets
  them to NULL.
- CommandRules.RuleBook.Reg: for a name in use or a literal the source aborts on an assertion; the
  model leaves the functions as they are.
- CommandRules.RuleBook.Free: for an index without a rule the source aborts on an assertion; the model
  leaves the rules as they are.
- Timers.TimerList.TimerPoll: callbacks do not poll again and do not delete the running timer; debug
  output and freeing of data are not modelled.
- Bans, topics, keys, limits, channel modes other than operator and voice, idents and hosts, accounts
  and hooks of channels and users. The queue of lines for the bot as a whole is left out: no handler
  ever fills it.
- ChanUserIrc.Session.ChangeNick: the new nick is free. The dict would hold two users under one nick
  otherwise.
- ChanUserIrc.Session.Topic: the topic itself is not modelled, only that the line is held back.
- ChanUserIrc.Session.SetModes: operator and voice changes only.
- ChanUserIrc.Session.Leave: the handlers pass channels and users by name and look them up, where the
  source passes pointers; the objects and both dicts are those of the tracker.
- ChanUser.Tracker.ChannelDel: the dicts are maps, so the order in which users leave is left open; that
  a loop over a dict survives the deletion of its current node is `Dict.Dict.Iterate`.
- NICK and QUIT go through during bursts, so equality with the server's membership is not claimed.
- Sha1Stream.Context.Update: inputs for which the 32-bit loop index wraps round are excluded, exactly.
  The hexadecimal form of a digest is left out.
- Sock.Socket.ReadEvent: reads that fail, and sockets for which an empty read is no hangup.
- Sock.Socket.Receive: reads contain no zero byte, and `read_func` does not close the socket. What the
  source does in a broken buffer, once the number of bytes in use has wrapped round, is not modelled.
  The send queue of a socket is left out.
- Throttle.SendQueue.Poll: a connection is there, and throttling is on; lines sent past the queue are
  not counted, as in the source.
- Policer.PolicerState.Conforms: reals instead of doubles.
- Policer.ConformingWindow: weights and the drain rate are not negative.
- The Mersenne twister, string buffers, pointer lists and tokenizing of server lines: supporting code.
