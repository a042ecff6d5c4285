# argdeclare command tree, modelled in Dafny

argdeclare turns the methods of a command class into an argparse command
line. A metaclass collects every class-body binding whose name starts with
`do_` into a command table keyed by the rest of the name. The decorators
`option(...)` and `option_group(...)` attach argparse option declarations to
a handler. `Commander.cmdline` builds the parser tree and dispatches the
parsed command line to the handler the selected parser records as `func`:

- with `_argparse_levels` falsy, every command is a direct subcommand under its full name;
- otherwise `parse_subparsers` splits each name at its underscores and
  nests the remainder under the first segment (the head). It caches the
  subparsers group opened for each head in the class-level dict
  `_argparse_structure`.

The model follows `argdeclare.py` as written:

- `Options` holds the decorators. A handler is a class `Func` whose
  `options` attribute is absent (`None`) until the first option is attached.
  `Apply` updates it in place.
- `Discovery` holds the metaclass loop (`Discover`) and its specification
  `Discovered`.
- `Names` holds `str.split("_")`, `"_".join` and the code-point order
  `sorted()` uses. `SortedNames` computes `sorted(keys)` against the
  specification `Sort`.
- `Tree` holds argparse's parser objects as an arena. A `Parser` node holds
  the help text, the options, the `func` default and the group it owns. A
  `Group` maps child names to nodes. The `structure` cache maps heads to
  group indices. `AddParserSpec`, `ParseSpec`, `Step` and `Register` specify
  one `add_parser` call, one `parse_subparsers` call, one turn of the
  registration loop and the whole loop. `Walk` specifies how argparse
  dispatches the command words.
- `Build` proves what the registration loop and a whole run of `cmdline`
  (`Built`) produce.
- `Commands` holds the `Commander` class. Its fields are the parser arena and
  the cache, and its methods `AddParser`, `AddSubparsers`, `ParseSubparsers`
  and `Cmdline` update those fields. Each method is proved against the
  specification function of the same step.
- `Findings` holds the discrepancy reported below and its correction.

The source itself marks where it stops short of its intent. The module's
TODO asks to "make fully recursive" (`argdeclare.py:13`), and the tests
expect three-word commands with `_argparse_levels = 2`
(`test_argdeclare.py:307-324`). The model follows the code:

- A name is split only once: the recursive call at `argdeclare.py:150` is
  commented out, so `a_b_c` becomes head `a` with the child `b_c`.
- There is no name validation and no error kind. A command line that leads
  to no `func` is modelled as the outcome `NoHandler`.
- The cache of groups is a class-level dict that is never cleared. It is not
  rebuilt per run.
- Any non-zero level setting behaves like 1.
- The remainder of the first command under a synthesized head gets the
  placeholder handler, not the command's own handler (see Findings). Later
  commands under the same head find it cached and get their own handlers
  (`CmdlineUnderSynthesizedHead`).

A child name registered twice in one group overwrites the earlier mapping,
as argparse before 3.11 does. The help listing then shows the name twice.

## Model

| member | source | states |
|---|---|---|
| Options.Func.constructor | argdeclare.py:46-49 | a new function object has no `options` attribute |
| Options.Apply | argdeclare.py:44-50 | a decorator returns the same function object. Its `options` list is created when absent, and the decorator's declarations are appended in order (an `option_group` applies its members one after another). Nothing appended leaves an absent attribute absent |
| Options.MakeOption | argdeclare.py:39-48 | `option(*args, **kwds)` builds a decorator that appends exactly the one declaration `(args, kwds)` |
| Options.MakeGroup | argdeclare.py:58-66 | `option_group(o1, ..., on)` builds a decorator that appends `o1`'s declarations, then those of `option_group(o2, ..., on)`; an empty group appends nothing |
| Options.ExtendedTwice | argdeclare.py:46-49 | appending two batches of declarations one after the other equals appending their concatenation once |
| Options.GroupConcat | argdeclare.py:63-66 | a group of `a + b` appends what group `a` appends, then what group `b` appends |
| Options.GroupOfOptions | argdeclare.py:41-66 | a group built from plain `option(...)` decorators appends exactly their declarations, in the order given |
| Options.GroupInOrder | argdeclare.py:60-66 | `option_group(o1, ..., on)` of plain options appends exactly n declarations, the i-th being `oi`'s |
| Options.ApplyStacked | argdeclare.py:44-50 | two stacked decorators applied to one function object leave its `options` with the innermost decorator's declarations first, then the outer one's, after any it already had |
| Options.GroupIsStacking | argdeclare.py:63-66 | `option_group(d1, d2)` appends exactly what stacking `d1` innermost and `d2` above it appends, and an empty `option_group()` changes nothing |
| Options.DeclsOfSnoc | argdeclare.py:64-65 | applying one more group member appends that member's declarations after the earlier ones |
| Discovery.HasPrefix | argdeclare.py:77 | `name.startswith("do_")`; `Discover` proves the table's keys are exactly the stripped names it accepts |
| Discovery.Doc | argdeclare.py:106 | a handler's `__doc__`, which is `"<head> commands"` for the placeholder (argdeclare.py:137); `Tree.ParseNewHead` pins the head's help to it |
| Discovery.Discover | argdeclare.py:74-87 | the command table has exactly one key per `do_`-prefixed binding: the name without the prefix. Each entry carries its key as name, the bound function, and that function's options, or none when it has no `options` attribute |
| Discovery.StripPrefix | argdeclare.py:77-78 | stripping the three-character prefix and putting it back gives the binding name again |
| Names.Head | argdeclare.py:114 | `head`, the first piece of `name.split("_")`; `HeadTail` proves it holds no `_` and starts the name |
| Names.Tail | argdeclare.py:114 | `tail`, the remaining pieces; `HeadTail` proves it is empty exactly when the name has no `_` |
| Names.Join | argdeclare.py:129 | `"_".join(pieces)`; `JoinSplit` proves it undoes the split |
| Names.Below | argdeclare.py:180 | Python's `<` on `str` (code-point order with a proper prefix first), the order `sorted` uses; `BelowIrreflexive`, `BelowTransitive` and `BelowTotal` prove it a strict total order |
| Names.Split | argdeclare.py:114 | `split` always yields at least one piece |
| Names.JoinSplit | argdeclare.py:114 | joining the pieces of a split with `_` gives back the name |
| Names.SplitPiecesClean | argdeclare.py:114 | no piece of a split contains `_` |
| Names.SplitSingle | argdeclare.py:116 | `tail` is empty exactly when the name has no `_`, and then `head` is the name |
| Names.HeadTail | argdeclare.py:114-129 | `head` holds no `_`. `tail` is empty iff the name has no `_`. Otherwise head, `_` and the joined tail spell the name |
| Names.EmptyRemainder | argdeclare.py:129 | the joined tail is empty only when the name is its head followed by one trailing `_` |
| Names.BelowIrreflexive | argdeclare.py:180 | no name sorts before itself |
| Names.BelowTransitive | argdeclare.py:180 | the sort order is transitive |
| Names.BelowTotal | argdeclare.py:180 | distinct names are ordered exactly one way |
| Names.PrefixBelow | argdeclare.py:180 | a proper prefix sorts before each of its extensions |
| Names.ExtensionAfter | argdeclare.py:180 | a bare head sorts before every underscored name that extends it |
| Names.LeastExists | argdeclare.py:180 | every non-empty set of names has a least element |
| Names.LeastUnique | argdeclare.py:180 | the least element is unique |
| Names.SortUnfold | argdeclare.py:180 | sorting puts the least key first, followed by the sorted rest |
| Names.SortListsKeys | argdeclare.py:180 | `sorted(keys)` lists every key exactly once, in strictly ascending order |
| Names.AscendingDistinct | argdeclare.py:180 | an ascending list holds no name twice |
| Names.SortedNames | argdeclare.py:180 | the loop that takes the least remaining key each time computes `sorted(keys)` |
| Tree.ChildName | argdeclare.py:104-105 | the child name is `name`, or the entry's own name when `name` is falsy, so it is empty only when the entry's name is |
| Tree.Dummy | argdeclare.py:132-137 | the placeholder entry for a head with no command of its own: named after the head, no options, the help-printing handler |
| Tree.LeafParser | argdeclare.py:106-110 | the parser `add_parser` builds: the entry's doc as help, its options in order, its handler as `func`; `Tree.AddParserDispatch` and `Tree.ParseCachedHead` pin it down |
| Tree.AddParserSpec | argdeclare.py:103-111 | `add_parser` creates exactly one parser and no group, and keeps the arena well formed |
| Tree.AddParserDispatch | argdeclare.py:103-111 | `add_parser` adds one child to the group, named `name` or, when `name` is falsy, the entry's own name. The child is appended to the help listing, carries the entry's options in order, and dispatches to the entry's handler. Every other group, every older parser and the cache are unchanged |
| Tree.OpenGroup | argdeclare.py:119-125 | `add_subparsers` opens one new group, and the cache binds the head to it |
| Tree.ParseSpec | argdeclare.py:113-151 | `parse_subparsers` always adds at least one parser and keeps the arena well formed |
| Tree.ParseFrame | argdeclare.py:113-151 | `parse_subparsers` keeps every older parser and every cached group. It writes exactly one slot of one existing group. The cache gains only the name's head, bound to a new group, and keeps its old bindings |
| Tree.ParseBare | argdeclare.py:116-125 | a bare name becomes a child of the current group that dispatches to its own handler. It gets a group of its own exactly when its name was not cached (a stale cache leaves it childless) |
| Tree.ParseCachedHead | argdeclare.py:127-129 | an underscored name with a cached head adds one parser, under the joined remainder in the cached group. That parser carries the entry's options and handler, and the cache is unchanged |
| Tree.ParseNewHead | argdeclare.py:130-151 | an underscored name with an uncached head adds a head parser with help `"<head> commands"`, no options and the placeholder handler. The head's new group is cached, and its one child, the remainder, also carries the placeholder with no options. Both `head` and `head rest` reach the placeholder, and the entry's handler is attached to no new parser |
| Tree.Step | argdeclare.py:183-186 | one loop turn adds at least one parser and keeps the arena well formed |
| Tree.Register | argdeclare.py:180-186 | the registration loop keeps the arena well formed and never removes a group |
| Tree.Walk | argdeclare.py:188-192 | dispatching the command words calls either the `func` default in force on entry or one that some parser records. Once a default is in force, the outcome is never "no handler" |
| Tree.VersionOption | argdeclare.py:163-165 | the top-level `-v/--version` argument with the `version` action; `Tree.Start` puts exactly this option on the top-level parser |
| Tree.Start | argdeclare.py:156-178 | every older parser and group is kept. One new parser is added, with the class doc as its description, exactly the `-v/--version` option and no `func`. It owns the one new group, titled "subcommands" with description "valid subcommands" and no children. The cache is untouched |
| Build.LeadsDispatch | argdeclare.py:110 | a child whose parser sets `func` dispatches to that handler, whether or not it owns a group |
| Build.RegisterSplit | argdeclare.py:180-186 | registering a list is registering a prefix of it, then the rest |
| Build.RegisterUnfold | argdeclare.py:180-186 | registering from position i is one loop turn on `names[i]`, then registering from i + 1 |
| Build.RegisterSnoc | argdeclare.py:180-186 | registering one more name is one more loop turn |
| Build.StepFrame | argdeclare.py:180-186 | one loop turn keeps every parser and cache binding. A falsy level setting leaves the cache alone. Otherwise the cache gains exactly the name's head |
| Build.RegisterKeepsNodes | argdeclare.py:180-186 | the loop never changes an existing parser |
| Build.RegisterKeepsCache | argdeclare.py:100 | the cache only grows: old bindings stay, new heads get new groups, and a falsy level setting leaves it untouched |
| Build.RegisterCacheKeys | argdeclare.py:119-141 | with a truthy level setting, the cache keys after the loop are the old keys plus the heads of the registered names |
| Build.FlatKeep | argdeclare.py:183-184 | in flat mode, a child whose name is not registered again keeps its handler |
| Build.FlatRegister | argdeclare.py:180-184 | in flat mode, each distinct name becomes a child under its full name and dispatches to its handler. The listing gains exactly the names in order, and the cache is unchanged |
| Build.NestedKeepTop | argdeclare.py:180-186 | with a truthy level setting, a cached top-level child that is not registered again keeps its parser |
| Build.NestedBare | argdeclare.py:116-118 | with a truthy level setting, every bare name is a top-level child that dispatches to its own handler |
| Build.NestedKeepSub | argdeclare.py:127-129 | a child of a head's group keeps its parser unless a later name adds the same child under that head |
| Build.HeadNotBefore | argdeclare.py:180 | in sorted order, no name before a bare name has that name as its head |
| Build.HeadOpened | argdeclare.py:116-125 | an uncached bare command gets a fresh group cached under its own name |
| Build.HeadKept | argdeclare.py:180-186 | later names that do not repeat the head keep the head's slot, parser and cached group |
| Build.LeafAdded | argdeclare.py:127-129 | an underscored name under a cached head adds its remainder to that head's group, with its own parser |
| Build.TwoWords | argdeclare.py:188-192 | `head rest` leads through the head's parser to the remainder's parser and calls its handler |
| Build.LaterMiss | argdeclare.py:180 | in sorted order, no name after an underscored name with a non-empty remainder adds a child of that name to its head's group: a later name with an empty remainder would be a proper prefix of it |
| Build.HeadRegistered | argdeclare.py:116-125 | sorted registration reaches a bare command before its name is cached, and that command opens its group |
| Build.LeafRegistered | argdeclare.py:127-129 | after registering up to an underscored name whose head is an earlier bare command, the head's group maps the remainder to that name's parser |
| Build.AfterLeaf | argdeclare.py:180-186 | later registrations keep the two-word path to that parser |
| Build.HeadPosition | argdeclare.py:180 | in sorted order, the bare head of an underscored name comes before it, whatever the other names |
| Build.UnderBareHead | argdeclare.py:113-151 | registering in sorted order makes `head rest` dispatch to the underscored command's own handler, when its head is an uncached bare command and its remainder is not empty. Nothing is assumed about the other names |
| Build.UnderBareHeadAt | argdeclare.py:113-151 | the same, with the positions of the head and of the name given, and with no later name clashing with the remainder |
| Build.FinishAt | argdeclare.py:180-186 | the names registered after the underscored one keep its dispatch unless one of them adds a child of the same name under the same head |
| Build.Transfer | argdeclare.py:180-186 | an outcome that holds after registering the prefix and then the rest holds after registering the whole list |
| Build.LevelsOnlyGate | argdeclare.py:183 | the loop depends on the level setting only through its truthiness |
| Build.Built | argdeclare.py:154-186 | a run of `cmdline` keeps the arena well formed and adds at least the top-level group |
| Build.CmdlineFlat | argdeclare.py:154-192 | with levels falsy, the top-level help lists every command once, in sorted order, under its full name. The top-level children are exactly the commands, each dispatches to its handler, and the cache is unchanged |
| Build.CmdlineBare | argdeclare.py:154-192 | with levels truthy, every command without `_` dispatches to its handler. The cache keeps its old bindings and gains exactly the heads of all command names |
| Build.CmdlineUnderCommandHead | argdeclare.py:154-192 | with levels truthy, when an underscored command's head is itself a command that was not cached before, `head rest` dispatches to the underscored command's handler, for any non-empty remainder `rest` and whatever the other command names |
| Build.SynthOpened | argdeclare.py:130-146 | an underscored name with an uncached head makes the head a top-level child with the placeholder handler, owning a fresh group cached under the head and under no other key |
| Build.FirstWithHead | argdeclare.py:180 | every name with a given head has a first position in the list, before which no name has that head |
| Build.SynthRegistered | argdeclare.py:130-146 | sorted registration synthesizes the head at the first name under it, because no earlier name has cached it |
| Build.SynthLeafRegistered | argdeclare.py:127-129 | after a later name under that synthesized head is registered, the head's group maps its remainder to that name's own parser |
| Build.Positions | argdeclare.py:180 | in `sorted(keys)` a key that sorts below another comes at an earlier position, and no name after an underscored one clashes with its remainder |
| Build.CmdlineUnderSynthesizedHead | argdeclare.py:127-151 | with levels truthy, when an underscored command's head is no command and was not cached before, every command under that head other than the first in sorted order (and with a non-empty remainder) is reached by `head rest` and dispatches to its own handler. The first one reaches the placeholder instead (`Build.CmdlineFirstUnderSynthesizedHead`) |
| Build.FirstPosition | argdeclare.py:180 | in `sorted(keys)`, no name before the least command under a head has that head, and no name after it clashes with its remainder |
| Build.SynthFirstLeaf | argdeclare.py:130-151 | registering up to the first command under an uncached head synthesizes the head, and that command's remainder becomes a child of the head's group carrying the placeholder entry |
| Build.CmdlineFirstUnderSynthesizedHead | argdeclare.py:130-151 | with levels truthy, as written: when an underscored command's head is no command and was not cached before, `head rest` for the command that sorts first under that head (with a non-empty remainder) calls the head's placeholder, not the command's handler |
| Build.CmdlineLevelsGate | argdeclare.py:183 | any two non-zero level settings build the same tree |
| Commands.Commander.constructor | argdeclare.py:74-100 | creating the class runs discovery: the command table is the discovered one, no parser exists yet, and the cache is empty |
| Commands.Commander.AddParser | argdeclare.py:103-111 | the method, adding options one by one, leaves exactly the state `AddParserSpec` describes and returns the new parser |
| Commands.Commander.AddSubparsers | argdeclare.py:120-125 | the method opens one empty group, owned by the given parser, and leaves the cache alone |
| Commands.Commander.ParseSubparsers | argdeclare.py:113-151 | the method, including the rebinding of the entry to the placeholder, leaves exactly the state `ParseSpec` describes |
| Commands.Commander.Cmdline | argdeclare.py:154-192 | the method leaves exactly the state `Built` describes after the sorted registration loop, on top of whatever the cache held. It returns the dispatch of the command words in that tree |
| Findings.LoneUnderscoredCommand | argdeclare.py:130-151 | as written: for a class whose only command is underscored, with a truthy level setting, `head rest` reaches the head's placeholder and never the command's handler |
| Findings.ParseIntended | argdeclare.py:130-151 | the corrected `parse_subparsers` keeps the arena well formed and adds at least one parser |
| Findings.IntendedNewHead | argdeclare.py:148-151 | corrected: under a new head, `head` alone reaches the placeholder, while `head rest` reaches the entry's own handler through a parser that carries the entry's options |
| Findings.IntendedDiffersOnlyAtLeaf | argdeclare.py:130-151 | the correction builds the same cache, the same older parsers and groups, and the same head parser as the code as written. It differs in the remainder's parser, which carries the entry instead of the placeholder. With a non-empty remainder the groups are identical. With an empty one (`x_`), the remainder's slot is named `x_` where the code as written, falling back to the placeholder's name, names it `x` |

## Left out

- argparse itself: help and usage formatting, `metavar`, `help="additional help"`, the formatter class, `epilog`, and the option attributes, which are carried as opaque declarations. Argument values are not parsed. Dispatch is modelled on the command words only.
- Tree.Walk: argparse's parsing is reduced to the command words. The deepest parser on the path that sets `func` wins. A parser whose subcommand group is optional (the argparse default) falls back to its own `func` when no further word is given. Options play no part in which word goes where: the dispatch lemmas (`CmdlineFlat`, `CmdlineBare`, `CmdlineUnderCommandHead`, `TwoWords`) hold only when no parser on the path declares a positional argument. A positional would take the next word (`build rest` would call `do_build` with `rest` bound), and a required one turns a shorter command line into a parse error.
- Reading `sys.argv` and the fall-back to `default_args` when it is empty. `Cmdline` takes the command words as a parameter.
- The placeholder lambda's late-bound `subparser.print_help()` target. The placeholder is the value `HelpStub(head)`, so which parser's help it prints is not modelled.
- Class creation itself (`type.__new__` and the binding of `_argparse_subcmds`). Discovery is modelled on the class-body mapping.
- The cache shared across different subclasses of `Commander`. The model keeps one cache per `Commander` object, across any number of `cmdline` runs.
- Deeper nesting: the recursive split at `argdeclare.py:150` is commented out in the source, so names are split once.
- Commands.Commander.Cmdline: calling the handler (`options.func(self, options)`) is modelled as the returned `Call` outcome. The handler's own effects are not modelled.
- The library's sample applications and the test helper that builds parent parsers are not part of this model.

## Findings

| source | as written | input that shows it | evidently intended | confidence | as-written member | corrected member |
|---|---|---|---|---|---|---|
| argdeclare.py:132-151 | for an underscored name whose head is not cached, `subcmd` is rebound to the placeholder before the remainder is added, so the remainder's parser gets the placeholder handler and no options | a class with `do_python_static` and no `do_python`, `_argparse_levels = 1`, command line `python static` | `python static` runs `do_python_static` with its options, as it does when `do_python` exists | not executed | Findings.LoneUnderscoredCommand | Findings.IntendedNewHead |
