# bowl.py command-line core, in Dafny

`bowl.py` builds a command-line interface out of plain Python functions. The
`_`-separated parts of each handler's name become a path of nested
subcommands. The handler's docstring supplies the subcommand's description
and the help text of each positional argument. A parsed command line is then
dispatched back to the handler as keyword arguments.

This project models that core as pure functions and proves properties about
them:

- **`build_tree`** (module `CommandTree`): handlers are arranged into a
  nested, insertion-ordered dictionary.
  - A `Tree<T>` is a `Leaf(item)` or a `Group` of `(key, subtree)` pairs.
    The pairs are kept in Python's dict insertion order.
  - `BuildTree` returns either the tree or the error the source raises:
    `Collision(at)` for the failed assertion, naming the path prefix where
    insertion stopped, or `EmptyPath` for the `IndexError` an empty path
    causes.
  - Two path functions are modelled: `f.__name__.split("_")`, and the
    default `str(o).split()` for items that are already strings.
- **The `add` walk** of `build_arg_parser`: `WalkTree` lists the leaves
  depth first, children in insertion order. This is the order in which
  subparsers are registered.
- **`parameter_name_and_description_from_docstring_line`** and
  **`description_and_parameters_from_function`** (module `Introspection`):
  - the docstring is given as its dedented lines, with `None` when there is
    none;
  - every line is scanned, the first line included;
  - a later line that names a parameter overrides an earlier one;
  - a parameter gets help text only at its first occurrence, because the
    source `pop`s the entry.
- **`run_args`** (module `Dispatch`): the routing entries `COMMAND` and
  `func` are deleted, and `func` is called with what remains.
- **Module `Bowl`** joins the pieces: `build_arg_parser` up to argparse, and
  the round trip from a subcommand's namespace back to its handler.
- **Text operations** (module `Text`): the subset of Python `str` that the
  core uses. This is `strip()` with Python's exact whitespace set,
  `split(":", maxsplit=1)`, `split("_")`, `split()` and `isidentifier()`.
- **The source's own tests** (modules `BuildTreeTests`, `ParseTests`,
  `IntrospectTests` and `BuildArgParserTests`) are restated as lemmas about
  the model.

## Model

| member | source | states |
|---|---|---|
| Text.Strip | bowl.py:324 | `strip()` leaves no whitespace at either end and never lengthens the string. The result is empty exactly when the input is all whitespace. |
| Text.StripPadded | bowl.py:324 | Stripping `a + m + b` gives back `m` when `a` and `b` are whitespace and `m` is already stripped. |
| Text.IndexOf | bowl.py:322 | Gives the position of the first `:` (the split point of `split(":", maxsplit=1)`), or `None` exactly when there is no `:`. |
| Text.IndexOfFirst | bowl.py:322 | A position holding `c` with no earlier `c` is the one `IndexOf` returns. |
| Text.Split | bowl.py:194 | `split("_")` yields at least one part. No part contains the separator. Joining the parts with the separator rebuilds the name. |
| Text.SplitJoin | bowl.py:194 | Splitting the `_`-join of separator-free parts gives back exactly those parts. |
| Text.Words | bowl.py:222 | `split()` yields non-empty words with no whitespace in them. It yields none exactly when the string is all whitespace. |
| Text.WordsFirst | bowl.py:222 | `split()` skips leading whitespace and returns the next maximal whitespace-free run as its first word, then splits the rest. With the blank case of `Text.Words` this fixes the result on every input. |
| Text.WordsJoin | bowl.py:222 | Splitting the space-join of non-empty, whitespace-free words gives back exactly those words. |
| CommandTree.Lookup | bowl.py:232-235 | `key in dict` and `dict[key]`: `None` exactly when the key is absent, otherwise a value stored under that key. |
| CommandTree.LookupDistinct | bowl.py:232-235 | In a dict with distinct keys, looking up an entry's key finds that entry's value. |
| CommandTree.Put | bowl.py:232-237 | `dict[key] = value` keeps an existing key in its place and appends a new key at the end. Every entry is the new pair or was already there. |
| CommandTree.PutLookup | bowl.py:232-237 | After `d[k] = v`, looking up `k` gives `v`. Every other key looks up as before. |
| CommandTree.PutWellFormed | bowl.py:232-237 | Assignment keeps every dict in the tree free of duplicate keys. |
| CommandTree.Place | bowl.py:230-237 | One item's insertion adds at most the item's first path segment to the keys. It keeps the tree well formed. It can fail only with a collision. |
| CommandTree.Insert | bowl.py:229-237 | An empty path is exactly the case that fails with `EmptyPath`, the `IndexError` of `path[-1]`. |
| CommandTree.BuildTree | bowl.py:220-238 | The tree that is built never holds a dict with a repeated key. |
| CommandTreeLemmas.PlaceResolve | bowl.py:230-237 | After a successful insertion, the item sits at its path and every proper prefix of the path is a dict. Every path that is not a prefix of the item's path resolves as before. |
| CommandTreeLemmas.PlaceFails | bowl.py:234-236 | An insertion fails exactly when a proper prefix of the path holds an item or the full path is already occupied. |
| CommandTreeLemmas.PlaceCollisionAt | bowl.py:226-236 | The collision names `path[:i+1]`. This is the first prefix holding an item, or the whole path when none does. Every shorter prefix is a dict. |
| CommandTreeLemmas.InsertShape | bowl.py:229-237 | An insertion adds exactly one leaf, at the item's path, and makes exactly the path's proper prefixes into dicts. |
| CommandTreeLemmas.BuildTreeShape | bowl.py:220-238 | In a built tree, `q` holds item `y` exactly when some item with path `q` is `y`. `q` is a dict exactly when it is the root or a proper prefix of some item's path. |
| CommandTreeLemmas.BlockedByEarlier | bowl.py:234-236 | Inserting at `p` into a built tree fails exactly when `p` is a prefix of some earlier path, or some earlier path is a prefix of `p`. |
| CommandTreeLemmas.BuildTreeSucceeds | bowl.py:220-238 | `build_tree` returns without raising exactly when every path is non-empty and no item's path is a prefix of another's, equal paths included. |
| CommandTreeLemmas.WalkGroupLeaves | bowl.py:179-184 | The leaves under a dict are the leaves under its children, each child's key extending the path. |
| CommandTreeLemmas.WalkTreeLeaves | bowl.py:172-189 | The `add` walk meets `(q, x)` exactly when `q` extends the walk's starting path and the subtree holds `x` at the remainder. |
| CommandTreeLemmas.WalkFromLeaves | bowl.py:179-189 | Walking the children from index `i` on meets exactly the leaves under those children. |
| CommandTreeLemmas.BuildTreeWalk | bowl.py:172-194 | Walking a built tree meets `(q, x)` exactly when `x` is an item whose path is `q`. |
| CommandTreeLemmas.BuildTreeWalkLength | bowl.py:172-189 | The walk over a built tree has exactly as many entries as there were items. With `BuildTreeWalk`, every item gets exactly one subparser, at its own path. |
| CommandTreeLemmas.FirstOccurrences | bowl.py:232-233 | The first occurrences of a list's elements hold the same elements, with no repeats. |
| CommandTreeLemmas.BuildTreeKeyOrder | bowl.py:228-237 | The top-level keys of a built tree are the items' first path segments, in order of first appearance. This is the order in which subcommands are listed. |
| CommandTreeLemmas.PlaceGroupKeys | bowl.py:230-237 | One insertion through group `q` keeps `q`'s existing keys in place and appends the next segment if it is new. A group the insertion creates holds just that segment. |
| CommandTreeLemmas.GroupKeyOrder | bowl.py:228-237 | Every group of a built tree, at any depth, lists its keys in the order in which the items below it first used each key. |
| Introspection.ParseHelpLine | bowl.py:319-327 | A line without `:` is not a parameter line. A parsed line yields an identifier and a stripped help text. |
| Introspection.ParseHelpLineSplit | bowl.py:322-327 | Splitting happens at the first `:`, so the help text may itself contain colons. The line parses exactly when the stripped left part is an identifier, and then yields both stripped parts. |
| Introspection.IdentifierPlain | bowl.py:325 | An identifier contains no `:` and no whitespace. |
| Introspection.ParseHelpLineFormatted | bowl.py:319-327 | `name : help` with any surrounding whitespace parses to `(name, help)`. |
| Introspection.FormattedLine | bowl.py:319-327 | An indented docstring line `name: help` parses to `(name, help)`. |
| Introspection.TableLastWins | bowl.py:263-267 | A name is in the help table exactly when some line names it. Its help text is the one on the last such line. |
| Introspection.Specs | bowl.py:268-274 | One argument per parameter, in order and under the parameter's name. Help is attached only at a name's first occurrence and only when the table has the name, because of the `pop`. |
| Introspection.Introspect | bowl.py:255-275 | The description is the first docstring line, or `""` without a docstring. There is one spec per parameter, named as the parameter. Without a docstring no parameter has help. |
| Introspection.IntrospectHelp | bowl.py:260-274 | A parameter has help exactly when it is the name's first occurrence and some docstring line names it. The help is the last such line's text. |
| Introspection.SpecsIgnoresOther | bowl.py:270-273 | A table entry for a name that is not a parameter changes nothing. |
| Introspection.IntrospectIgnoresOtherNames | bowl.py:263-274 | Appending a docstring line that does not name a parameter changes nothing. |
| Introspection.IntrospectDocumented | bowl.py:297-316 | A docstring of a description, a blank line and one `name: help` line per parameter yields that description, with each parameter carrying its own help. |
| Introspection.IntrospectUndocumented | bowl.py:281-295 | A one-line docstring with no `:` yields itself as the description and no help for any parameter. |
| Dispatch.RunArgs | bowl.py:354-358 | Dispatch succeeds exactly when both `COMMAND` and `func` are present. Otherwise it fails with the `KeyError` of the first missing key, in deletion order. On success the handler is `func`, and the keyword arguments are every other entry, with values unchanged. |
| Dispatch.RunArgsRestores | bowl.py:355-357 | Putting `COMMAND` and `func` back into the keyword arguments gives the original namespace. |
| Dispatch.RunArgsPassesExtras | bowl.py:361-371 | `COMMAND="f", func=f, a="1", b="2"` calls `f` with `a="1", b="2"`. The extra `b` is passed on too. |
| Bowl.LeavesAreHandlers | bowl.py:172-194 | Every leaf the walk meets is one of the given handlers. |
| Bowl.Subcommands | bowl.py:162-195 | Building the parser succeeds exactly when the handlers' name paths are free of conflicts. There is one subcommand per handler, in the order the `add` walk registers them. Each subcommand belongs to a given handler, sits at the path its name spells, and is described by introspecting that handler. |
| Bowl.SubcommandsCover | bowl.py:172-194 | A function is some subcommand's handler exactly when it is one of the given handlers. |
| Bowl.LeafNamespace | bowl.py:176-189 | A leaf's namespace holds `COMMAND`, `func` and one entry per parameter with its command-line value. A parameter's value replaces a routing entry of the same name. Otherwise `COMMAND` is the leaf's name and `func` its handler. |
| Bowl.RoutingShadowed | bowl.py:186-189 | A parameter named `func` becomes the call's target, a string. A parameter named `COMMAND` never reaches the handler's keyword arguments. |
| Bowl.DispatchReachesHandler | bowl.py:354-358 | Dispatching a subcommand's namespace calls that subcommand's handler with exactly its parameters bound to their values. |
| BuildTreeTests.BuildTreeExample | bowl.py:244-248 | `["a", "b 1", "b 2", "c"]` builds `{a: "a", b: {1: "b 1", 2: "b 2"}, c: "c"}`, with keys in that order. |
| BuildTreeTests.BuildTreeRepeatedPath | bowl.py:249-250 | Inserting `"a b c"` twice fails with a collision at `["a", "b", "c"]`. |
| BuildTreeTests.BuildTreeThroughLeaf | bowl.py:251-252 | Paths `["x"]`, `["x", "x"]`, … fail with a collision at `["x"]`, where the second item meets the first. |
| ParseTests.ParseHelpLineNoMarker | bowl.py:333-334 | `""` and `"no marker"` are not parameter lines. |
| ParseTests.ParseHelpLineExample | bowl.py:335-341 | `"example: a description"` parses to `("example", "a description")`. |
| IntrospectTests.IntrospectNoParameters | bowl.py:281-286 | A function without parameters and a one-line docstring is described by that line and gets no arguments. |
| BuildArgParserTests.NamePaths | bowl.py:194 | `one`, `two_a` and `two_b` have the paths `[one]`, `[two, a]` and `[two, b]`. |
| BuildArgParserTests.TreeOfTestHandlers | bowl.py:212-213 | The handlers build `{one: one, two: {a: two_a, b: two_b}}`, so the usage lists `{one,two}`. |
| BuildArgParserTests.WalkOfTestTree | bowl.py:172-189 | The walk registers `one`, `two a` and `two b`, in that order. |
| BuildArgParserTests.TwoADescribed | bowl.py:202-207 | `two_a` is described as `help for two a`, and its arguments `a`, `b`, `c` have the helps `x`, `y`, `z`. |
| BuildArgParserTests.BuildArgParserExample | bowl.py:212 | The parser for `[one, two_a, two_b]` gets exactly these three subcommands, with these signatures, in order. |
| BuildArgParserTests.ParseOneExample | bowl.py:214 | `one` parses to `COMMAND="one", func=one` and dispatches to `one` with no arguments. |
| BuildArgParserTests.ParseAndDispatchExample | bowl.py:215-217 | `two a 1 2 3` parses to `COMMAND="a", a="1", b="2", c="3", func=two_a` and dispatches to `two_a(a="1", b="2", c="3")`. |

## Left out

- I/O and process control are not modelled, because they are outside the pure core:
  - `dev_init` and `is_in_venv`;
  - the placeholder definitions `Alley`, `Lane`, `bowl`, `init` and `dev_pytest`;
  - the `rich` fallback;
  - `main`, `parse_args`, and the `sys.argv[0]` program name.
- argparse itself is not modelled. The parser is represented by the subcommands `add` registers: path, handler and signature. `LeafNamespace` states the namespace argparse returns for a leaf. It follows argparse's order: a parsed positional is stored over the leaf parser's defaults, and the leaf's entries are copied over the subparsers' `COMMAND`. Usage text, type conversion, optional arguments and parse errors are argparse internals.
- Reflection is not modelled. `inspect.getfullargspec`, `textwrap.dedent` and `splitlines()` are replaced by inputs: a handler carries its name, its dedented docstring lines and its positional parameter names.
- The call `args.func(**kwargs)` is not made. `RunArgs` returns the handler and its keyword arguments.
- Introspection.Introspect: requires that a present docstring has at least one line. A one-line docstring of only spaces and tabs is truthy, but `textwrap.dedent` turns it into `""`. `splitlines()` then gives no lines, and `lines[0]` raises `IndexError`. That crash is not modelled. A docstring of several blank lines still dedents to at least one line and does not crash.
- Text.IsIdentifier: accepts only ASCII identifiers. Python's `isidentifier()` also accepts Unicode letters.
- CommandTree.Tree tags every leaf. The source tells items from subtrees with `isinstance(…, dict)`, so a dict-valued item would be walked as a subtree. Handlers are functions, so this does not arise in the core.
- CommandTree.SplitOnWhitespace: takes a string. The `str()` conversion that the default `getpath` applies to other items is not modelled.
- CommandTree.BuildTree: assumes the `assert` statements of bowl.py:234 and 236 run. Under `python -O` they are removed. A repeated path is then overwritten silently at line 237, and descending through an item raises `TypeError` instead.
- CommandTree.BuildTree: does not check for empty path segments. For example, `dev__init` or `_x` give `""` as a subcommand name. The source does not check for these either.
- Bowl.DispatchReachesHandler: requires that no parameter is named `COMMAND` or `func`. The parameter's command-line value replaces the routing entry of that name, so dispatch does not reach the handler as described. A `func` parameter makes the call target a string, and a `COMMAND` parameter is deleted before the call. `Bowl.RoutingShadowed` states both outcomes.
- Dispatch.RunArgs forwards every namespace entry except `COMMAND` and `func`, including keys that are not parameters of the handler. Nothing checks them against the handler's signature, and the test at bowl.py:370-371 relies on this.
