/** `build_arg_parser` (bowl.py:162-195) and the driver (bowl.py:354-358) put
    together: handlers are arranged into a command tree by the `_`-separated
    parts of their names, every leaf becomes a subcommand described by its
    docstring, and a parsed command line is dispatched back to its handler.
    argparse itself is not modelled: a subcommand is the data `add` hands to
    it. */
module Bowl {
  import opened Wrappers
  import opened CommandTree
  import CommandTreeLemmas
  import opened Introspection
  import opened Dispatch

  /** A handler function as `build_arg_parser` sees it: its `__name__`, its
      docstring already dedented and split into lines (`None` when it has
      none or it is empty), and its positional parameters. */
  datatype Handler = Handler(name: string, doc: Option<seq<string>>, args: seq<string>)

  /** A docstring that is present has a first line. */
  predicate DocOk(h: Handler) {
    h.doc.Some? ==> |h.doc.value| > 0
  }

  /** The `getpath` of bowl.py:194. */
  function HandlerPath(h: Handler): seq<string> {
    NamePath(h.name)
  }

  /** A leaf subparser created by `add` (bowl.py:183-189): reached by `path`,
      described by `signature`, with `func` defaulting to `handler`. */
  datatype Subcommand = Subcommand(path: seq<string>, handler: Handler, signature: Signature)

  function Describe(leaves: seq<(seq<string>, Handler)>): seq<Subcommand>
    requires forall k :: 0 <= k < |leaves| ==> DocOk(leaves[k].1)
  {
    seq(|leaves|, k requires 0 <= k < |leaves| && DocOk(leaves[k].1) =>
      Subcommand(leaves[k].0, leaves[k].1, Introspect(leaves[k].1.doc, leaves[k].1.args)))
  }

  /** Every leaf the walk meets is one of the handlers. */
  lemma LeavesAreHandlers(handlers: seq<Handler>, t: Dict<Handler>)
    requires forall i :: 0 <= i < |handlers| ==> DocOk(handlers[i])
    requires BuildTree(handlers, HandlerPath) == Success(t)
    ensures forall k :: 0 <= k < |WalkTree(Group(t), [])| ==>
      WalkTree(Group(t), [])[k].1 in handlers && DocOk(WalkTree(Group(t), [])[k].1)
  {
    var w := WalkTree(Group(t), []);
    forall k | 0 <= k < |w| ensures w[k].1 in handlers && DocOk(w[k].1) {
      assert w[k] in w;
      CommandTreeLemmas.BuildTreeWalk(handlers, HandlerPath, w[k].0, w[k].1);
    }
  }

  /** `build_arg_parser(subcommands=handlers)` up to argparse: one leaf
      subcommand per handler, in the order `add` registers them, or the
      exception `build_tree` raises. */
  function Subcommands(handlers: seq<Handler>): (r: Result<seq<Subcommand>, BuildError>)
    requires forall i :: 0 <= i < |handlers| ==> DocOk(handlers[i])
    ensures r.Success? <==> CommandTreeLemmas.ConflictFree(handlers, HandlerPath)
    ensures r.Success? ==> |r.value| == |handlers|
    ensures r.Success? ==>
      && BuildTree(handlers, HandlerPath).Success?
      && var w := WalkTree(Group(BuildTree(handlers, HandlerPath).value), []);
         |r.value| == |w| && forall k :: 0 <= k < |w| ==> (r.value[k].path, r.value[k].handler) == w[k]
    ensures r.Success? ==> forall k :: 0 <= k < |r.value| ==>
      var s := r.value[k];
      && s.handler in handlers
      && DocOk(s.handler)
      && s.path == HandlerPath(s.handler)
      && s.signature == Introspect(s.handler.doc, s.handler.args)
  {
    CommandTreeLemmas.BuildTreeSucceeds(handlers, HandlerPath);
    match BuildTree(handlers, HandlerPath)
    case Failure(e) => Failure(e)
    case Success(t) =>
      LeavesAreHandlers(handlers, t);
      CommandTreeLemmas.BuildTreeWalkLength(handlers, HandlerPath);
      var w := WalkTree(Group(t), []);
      assert forall k :: 0 <= k < |w| ==> w[k].0 == HandlerPath(w[k].1) by {
        forall k | 0 <= k < |w| ensures w[k].0 == HandlerPath(w[k].1) {
          assert w[k] in w;
          CommandTreeLemmas.BuildTreeWalk(handlers, HandlerPath, w[k].0, w[k].1);
        }
      }
      Success(Describe(w))
  }

  /** A function is some subcommand's handler exactly when it is one of the
      handlers; with the count in `Subcommands`, each has exactly one. */
  lemma SubcommandsCover(handlers: seq<Handler>, h: Handler)
    requires forall i :: 0 <= i < |handlers| ==> DocOk(handlers[i])
    requires Subcommands(handlers).Success?
    ensures var r := Subcommands(handlers).value;
      h in handlers <==> exists k :: 0 <= k < |r| && r[k].handler == h
  {
    var t := BuildTree(handlers, HandlerPath).value;
    var w := WalkTree(Group(t), []);
    var r := Subcommands(handlers).value;
    assert |r| == |w|;
    if h in handlers {
      var i :| 0 <= i < |handlers| && handlers[i] == h;
      CommandTreeLemmas.BuildTreeWalk(handlers, HandlerPath, HandlerPath(h), h);
      var k :| 0 <= k < |w| && w[k] == (HandlerPath(h), h);
      assert r[k].handler == h;
    }
  }

  /** A value in argparse's namespace: a command-line string or the handler
      stored by `set_defaults(func=...)`. */
  datatype Value = Str(s: string) | Fn(handler: Handler)

  predicate DistinctNames(params: seq<ArgSpec>) {
    forall i, j :: 0 <= i < j < |params| ==> params[i].name != params[j].name
  }

  function ParamNames(params: seq<ArgSpec>): set<string> {
    set i | 0 <= i < |params| :: params[i].name
  }

  /** The parameters bound to command-line values, as keyword arguments. */
  function Bind(params: seq<ArgSpec>, values: seq<string>): (r: map<string, Value>)
    requires |values| == |params| && DistinctNames(params)
    ensures r.Keys == ParamNames(params)
    ensures forall i :: 0 <= i < |params| ==> r[params[i].name] == Str(values[i])
  {
    map i | 0 <= i < |params| :: params[i].name := Str(values[i])
  }

  /** The namespace argparse returns for subcommand `s` given one value per
      positional parameter. The subparsers' action stores the subparser's name
      under `COMMAND`, the last segment of the path (bowl.py:176, 186); the
      leaf parser starts from its default `func`, the handler (bowl.py:187),
      and stores each parameter's value over it (bowl.py:188-189); its entries
      are then copied over the parent's. So a parameter wins over a routing
      entry of the same name. */
  function LeafNamespace(s: Subcommand, values: seq<string>): (r: map<string, Value>)
    requires |s.path| > 0
    requires |values| == |s.signature.params| && DistinctNames(s.signature.params)
    ensures r.Keys == {CommandKey, FuncKey} + ParamNames(s.signature.params)
    ensures forall i :: 0 <= i < |s.signature.params| ==> r[s.signature.params[i].name] == Str(values[i])
    ensures (forall i :: 0 <= i < |s.signature.params| ==> s.signature.params[i].name != CommandKey)
      ==> r[CommandKey] == Str(s.path[|s.path| - 1])
    ensures (forall i :: 0 <= i < |s.signature.params| ==> s.signature.params[i].name != FuncKey)
      ==> r[FuncKey] == Fn(s.handler)
  {
    map[CommandKey := Str(s.path[|s.path| - 1]), FuncKey := Fn(s.handler)] + Bind(s.signature.params, values)
  }

  /** A parameter named like a routing entry shadows it: one named `func`
      becomes the call's target, a string, so `args.func(**kwargs)` raises
      `TypeError`; one named `COMMAND` is deleted by `run_args` and never
      reaches the handler. */
  lemma RoutingShadowed(s: Subcommand, values: seq<string>, i: nat)
    requires |s.path| > 0
    requires |values| == |s.signature.params| && DistinctNames(s.signature.params)
    requires i < |s.signature.params|
    ensures var c := RunArgs(LeafNamespace(s, values));
      && c.Success?
      && (s.signature.params[i].name == FuncKey ==> c.value.handler == Str(values[i]))
      && (s.signature.params[i].name == CommandKey ==> CommandKey !in c.value.kwargs)
  {
  }

  /** Dispatch closes the loop: `run_args` on a subcommand's namespace calls
      that subcommand's handler with exactly its parameters bound to their
      values, provided no parameter is itself called `COMMAND` or `func`. */
  lemma DispatchReachesHandler(s: Subcommand, values: seq<string>)
    requires |s.path| > 0
    requires |values| == |s.signature.params| && DistinctNames(s.signature.params)
    requires forall i :: 0 <= i < |s.signature.params| ==> s.signature.params[i].name !in {CommandKey, FuncKey}
    ensures RunArgs(LeafNamespace(s, values)) == Success(Call(Fn(s.handler), Bind(s.signature.params, values)))
  {
    var b := Bind(s.signature.params, values);
    var ns := LeafNamespace(s, values);
    var kw := RunArgs(ns).value.kwargs;
    assert CommandKey !in b && FuncKey !in b;
    assert kw.Keys == b.Keys;
    forall k | k in kw ensures kw[k] == b[k] {
      assert k != CommandKey && k != FuncKey;
    }
    assert kw == b;
  }
}
