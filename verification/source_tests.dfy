/** The cases the repository's own tests check (bowl.py:198-217, 241-252,
    278-316, 330-341, 361-371), stated about the model. */
module BuildTreeTests {
  import opened Wrappers
  import opened Text
  import opened CommandTree

  lemma WordsOfA()
    ensures SplitOnWhitespace("a") == ["a"]
  {
    assert NoSpace("a");
    assert Join(["a"], ' ') == "a";
    WordsJoin(["a"]);
  }

  lemma WordsOfC()
    ensures SplitOnWhitespace("c") == ["c"]
  {
    assert NoSpace("c");
    assert Join(["c"], ' ') == "c";
    WordsJoin(["c"]);
  }

  lemma WordsOfB1()
    ensures SplitOnWhitespace("b 1") == ["b", "1"]
  {
    assert NoSpace("b") && NoSpace("1");
    assert Join(["b", "1"], ' ') == "b 1";
    WordsJoin(["b", "1"]);
  }

  lemma WordsOfB2()
    ensures SplitOnWhitespace("b 2") == ["b", "2"]
  {
    assert NoSpace("b") && NoSpace("2");
    assert Join(["b", "2"], ' ') == "b 2";
    WordsJoin(["b", "2"]);
  }

  lemma WordsOfABC()
    ensures SplitOnWhitespace("a b c") == ["a", "b", "c"]
  {
    assert NoSpace("a") && NoSpace("b") && NoSpace("c");
    assert Join(["a", "b", "c"], ' ') == "a b c";
    WordsJoin(["a", "b", "c"]);
  }

  /** One more item: the fold of `build_tree` extended by one step. */
  lemma BuildTreeSnoc<T>(items: seq<T>, x: T, getpath: T -> seq<string>)
    ensures BuildTree(items + [x], getpath)
         == match BuildTree(items, getpath)
            case Failure(e) => Failure(e)
            case Success(d) => Insert(d, getpath(x), x)
  {
    assert (items + [x])[..|items|] == items;
  }

  /** The tree after each of the four items of bowl.py:244. */
  lemma BuildTreeExample1()
    ensures BuildTree(["a"], SplitOnWhitespace) == Success([("a", Leaf("a"))])
  {
    WordsOfA();
    BuildTreeSnoc([], "a", SplitOnWhitespace);
    assert [] + ["a"] == ["a"];
    assert Keys<string>([]) == [];
  }

  lemma InsertFirstOfB()
    ensures Insert([("a", Leaf("a"))], ["b", "1"], "b 1")
         == Success([("a", Leaf("a")), ("b", Group([("1", Leaf("b 1"))]))])
  {
    var d: Dict<string> := [("a", Leaf("a"))];
    var g: Dict<string> := [("1", Leaf("b 1"))];
    assert Keys(d) == ["a"];
    assert Keys<string>([]) == [];
    assert Place<string>([], ["b"], ["1"], "b 1") == Success(g);
    assert ["b", "1"][1..] == ["1"];
    assert Put(d, "b", Group(g)) == d + [("b", Group(g))];
    assert d + [("b", Group(g))] == [("a", Leaf("a")), ("b", Group(g))];
  }

  lemma BuildTreeExample2()
    ensures BuildTree(["a", "b 1"], SplitOnWhitespace)
         == Success([("a", Leaf("a")), ("b", Group([("1", Leaf("b 1"))]))])
  {
    BuildTreeExample1();
    WordsOfB1();
    InsertFirstOfB();
    BuildTreeSnoc(["a"], "b 1", SplitOnWhitespace);
    assert ["a"] + ["b 1"] == ["a", "b 1"];
  }

  lemma InsertSecondOfB()
    ensures var g: Dict<string> := [("1", Leaf("b 1"))];
      Insert([("a", Leaf("a")), ("b", Group(g))], ["b", "2"], "b 2")
        == Success([("a", Leaf("a")), ("b", Group([("1", Leaf("b 1")), ("2", Leaf("b 2"))]))])
  {
    var g: Dict<string> := [("1", Leaf("b 1"))];
    var d: Dict<string> := [("a", Leaf("a")), ("b", Group(g))];
    var g': Dict<string> := [("1", Leaf("b 1")), ("2", Leaf("b 2"))];
    assert Keys(g) == ["1"];
    assert Keys(d) == ["a", "b"];
    assert Lookup(d, "b") == Some(Group(g));
    assert Put(g, "2", Leaf("b 2")) == g';
    assert Place(g, ["b"], ["2"], "b 2") == Success(g');
    assert ["b", "2"][1..] == ["2"];
    assert Put(d, "b", Group(g')) == [("a", Leaf("a")), ("b", Group(g'))];
  }

  lemma BuildTreeExample3()
    ensures BuildTree(["a", "b 1", "b 2"], SplitOnWhitespace)
         == Success([("a", Leaf("a")), ("b", Group([("1", Leaf("b 1")), ("2", Leaf("b 2"))]))])
  {
    BuildTreeExample2();
    WordsOfB2();
    InsertSecondOfB();
    BuildTreeSnoc(["a", "b 1"], "b 2", SplitOnWhitespace);
    assert ["a", "b 1"] + ["b 2"] == ["a", "b 1", "b 2"];
  }

  lemma InsertC()
    ensures var g: Dict<string> := [("1", Leaf("b 1")), ("2", Leaf("b 2"))];
      Insert([("a", Leaf("a")), ("b", Group(g))], ["c"], "c")
        == Success([("a", Leaf("a")), ("b", Group(g)), ("c", Leaf("c"))])
  {
    var g: Dict<string> := [("1", Leaf("b 1")), ("2", Leaf("b 2"))];
    var d: Dict<string> := [("a", Leaf("a")), ("b", Group(g))];
    assert Keys(d) == ["a", "b"];
    assert Put(d, "c", Leaf("c")) == d + [("c", Leaf("c"))];
    assert d + [("c", Leaf("c"))] == [("a", Leaf("a")), ("b", Group(g)), ("c", Leaf("c"))];
  }

  /** bowl.py:244-248: `a` and `c` are leaves, `b` a group holding `1` and `2`;
      keys keep their insertion order. */
  lemma BuildTreeExample()
    ensures BuildTree(["a", "b 1", "b 2", "c"], SplitOnWhitespace)
         == Success([("a", Leaf("a")),
                     ("b", Group([("1", Leaf("b 1")), ("2", Leaf("b 2"))])),
                     ("c", Leaf("c"))])
  {
    BuildTreeExample3();
    WordsOfC();
    InsertC();
    BuildTreeSnoc(["a", "b 1", "b 2"], "c", SplitOnWhitespace);
    assert ["a", "b 1", "b 2"] + ["c"] == ["a", "b 1", "b 2", "c"];
  }

  lemma InsertABC()
    ensures Insert<string>([], ["a", "b", "c"], "a b c")
         == Success([("a", Group([("b", Group([("c", Leaf("a b c"))]))]))])
  {
    var c: Dict<string> := [("c", Leaf("a b c"))];
    var b: Dict<string> := [("b", Group(c))];
    assert Keys<string>([]) == [];
    assert ["a", "b", "c"][1..] == ["b", "c"] && ["b", "c"][1..] == ["c"];
    assert Place<string>([], ["a", "b"], ["c"], "a b c") == Success(c);
    assert Place<string>([], ["a"], ["b", "c"], "a b c") == Success(b);
  }

  lemma InsertABCAgain()
    ensures var a: Dict<string> := [("a", Group([("b", Group([("c", Leaf("a b c"))]))]))];
      Insert(a, ["a", "b", "c"], "a b c") == Failure(Collision(["a", "b", "c"]))
  {
    var c: Dict<string> := [("c", Leaf("a b c"))];
    var b: Dict<string> := [("b", Group(c))];
    var a: Dict<string> := [("a", Group(b))];
    assert ["a", "b", "c"][1..] == ["b", "c"] && ["b", "c"][1..] == ["c"];
    assert Keys(a) == ["a"] && Keys(b) == ["b"] && Keys(c) == ["c"];
    assert ["a", "b"] + ["c"] == ["a", "b", "c"] && ["a"] + ["b"] == ["a", "b"] && [] + ["a"] == ["a"];
    assert Lookup(a, "a") == Some(Group(b)) && Lookup(b, "b") == Some(Group(c));
    assert Place(c, ["a", "b"], ["c"], "a b c") == Failure(Collision(["a", "b", "c"]));
    assert Place(b, ["a"], ["b", "c"], "a b c") == Failure(Collision(["a", "b", "c"]));
  }

  /** bowl.py:249-250: the same path twice raises, and the message names that
      path. */
  lemma BuildTreeRepeatedPath()
    ensures BuildTree(["a b c", "a b c"], SplitOnWhitespace) == Failure(Collision(["a", "b", "c"]))
  {
    WordsOfABC();
    BuildTreeABC();
    InsertABCAgain();
    BuildTreeSnoc(["a b c"], "a b c", SplitOnWhitespace);
    assert ["a b c"] + ["a b c"] == ["a b c", "a b c"];
  }

  lemma BuildTreeABC()
    ensures BuildTree(["a b c"], SplitOnWhitespace)
         == Success([("a", Group([("b", Group([("c", Leaf("a b c"))]))]))])
  {
    WordsOfABC();
    InsertABC();
    BuildTreeSnoc([], "a b c", SplitOnWhitespace);
    assert [] + ["a b c"] == ["a b c"];
  }

  function Xs(n: nat): seq<string> {
    seq(n, _ => "x")
  }

  /** bowl.py:251-252: with `getpath = lambda n: ["x"] * n`, the path of `2`
      runs through the leaf that `1` put at `x`. */
  lemma BuildTreeThroughLeaf()
    ensures BuildTree<nat>([1, 2, 3], Xs) == Failure(Collision(["x"]))
  {
    var items: seq<nat> := [1, 2, 3];
    assert Xs(1) == ["x"] && Xs(2) == ["x", "x"];
    var d1: Dict<nat> := [("x", Leaf(1))];
    assert items[..1] == [1];
    assert items[..1][..0] == [];
    assert Keys<nat>([]) == [];
    assert BuildTree(items[..1], Xs) == Success(d1);
    assert items[..2] == [1, 2];
    assert Keys(d1) == ["x"];
    assert Lookup(d1, "x") == Some(Leaf(1));
    assert BuildTree(items[..2], Xs) == Insert(d1, ["x", "x"], 2);
    assert BuildTree(items[..2], Xs) == Failure(Collision(["x"]));
  }
}

module ParseTests {
  import opened Text
  import opened Wrappers
  import opened Introspection

  /** bowl.py:333-334: neither the empty line nor one without a colon names a
      parameter. */
  lemma ParseHelpLineNoMarker()
    ensures ParseHelpLine("") == None
    ensures ParseHelpLine("no marker") == None
  {
    var s := "no marker";
    assert ':' !in s;
  }

  lemma ExampleLineParts()
    ensures IsIdentifier("example") && IsStripped("a description")
    ensures AllSpace("") && AllSpace(" ")
    ensures "" + "example" + "" + ":" + " " + "a description" + "" == "example: a description"
  {
  }

  /** bowl.py:335-341. */
  lemma ParseHelpLineExample()
    ensures ParseHelpLine("example: a description") == Some(("example", "a description"))
  {
    ExampleLineParts();
    ParseHelpLineFormatted("", "example", "", " ", "a description", "");
  }
}

module IntrospectTests {
  import opened Wrappers
  import opened Introspection

  /** bowl.py:281-286: a one-line docstring is the whole description and
      there are no parameters. */
  lemma IntrospectNoParameters()
    ensures Introspect(Some(["This function has no parameters"]), [])
         == Signature("This function has no parameters", [])
  {
  }
}

module BuildArgParserTests {
  import opened Wrappers
  import opened Text
  import opened CommandTree
  import opened Introspection
  import opened Dispatch
  import opened Bowl
  import BuildTreeTests

  const Pad: string := "        "

  /** The three handlers of bowl.py:199-210. `two_a`'s docstring is given as
      the lines `textwrap.dedent(func.__doc__).splitlines()` yields: the first
      line has no indentation, so dedenting leaves the others indented. */
  function One(): Handler {
    Handler("one", None, [])
  }

  function TwoA(): Handler {
    Handler("two_a", Some(DocumentedDoc("help for two a", Pad, ["a", "b", "c"], ["x", "y", "z"])), ["a", "b", "c"])
  }

  function TwoB(): Handler {
    Handler("two_b", None, [])
  }

  lemma NamePaths()
    ensures HandlerPath(One()) == ["one"]
    ensures HandlerPath(TwoA()) == ["two", "a"]
    ensures HandlerPath(TwoB()) == ["two", "b"]
  {
    assert '_' !in "one" && '_' !in "two" && '_' !in "a" && '_' !in "b";
    assert Join(["one"], '_') == "one";
    assert Join(["two", "a"], '_') == "two_a";
    assert Join(["two", "b"], '_') == "two_b";
    SplitJoin(["one"], '_');
    SplitJoin(["two", "a"], '_');
    SplitJoin(["two", "b"], '_');
  }

  lemma TreeOfOne()
    ensures BuildTree([One()], HandlerPath) == Success([("one", Leaf(One()))])
  {
    NamePaths();
    BuildTreeTests.BuildTreeSnoc([], One(), HandlerPath);
    assert [] + [One()] == [One()];
    assert Keys<Handler>([]) == [];
  }

  lemma InsertTwoA()
    ensures Insert([("one", Leaf(One()))], ["two", "a"], TwoA())
         == Success([("one", Leaf(One())), ("two", Group([("a", Leaf(TwoA()))]))])
  {
    var d: Dict<Handler> := [("one", Leaf(One()))];
    var g: Dict<Handler> := [("a", Leaf(TwoA()))];
    assert Keys(d) == ["one"];
    assert Keys<Handler>([]) == [];
    assert Place<Handler>([], ["two"], ["a"], TwoA()) == Success(g);
    assert ["two", "a"][1..] == ["a"];
    assert Put(d, "two", Group(g)) == d + [("two", Group(g))];
    assert d + [("two", Group(g))] == [("one", Leaf(One())), ("two", Group(g))];
  }

  lemma TreeOfOneTwoA()
    ensures BuildTree([One(), TwoA()], HandlerPath)
         == Success([("one", Leaf(One())), ("two", Group([("a", Leaf(TwoA()))]))])
  {
    TreeOfOne();
    NamePaths();
    InsertTwoA();
    BuildTreeTests.BuildTreeSnoc([One()], TwoA(), HandlerPath);
    assert [One()] + [TwoA()] == [One(), TwoA()];
  }

  function Tree(): Dict<Handler> {
    [("one", Leaf(One())), ("two", Group([("a", Leaf(TwoA())), ("b", Leaf(TwoB()))]))]
  }

  lemma InsertTwoB()
    ensures Insert([("one", Leaf(One())), ("two", Group([("a", Leaf(TwoA()))]))], ["two", "b"], TwoB())
         == Success(Tree())
  {
    var g: Dict<Handler> := [("a", Leaf(TwoA()))];
    var d: Dict<Handler> := [("one", Leaf(One())), ("two", Group(g))];
    var g': Dict<Handler> := [("a", Leaf(TwoA())), ("b", Leaf(TwoB()))];
    assert Keys(g) == ["a"];
    assert Keys(d) == ["one", "two"];
    assert Lookup(d, "two") == Some(Group(g));
    assert Put(g, "b", Leaf(TwoB())) == g';
    assert Place(g, ["two"], ["b"], TwoB()) == Success(g');
    assert ["two", "b"][1..] == ["b"];
    assert Put(d, "two", Group(g')) == Tree();
  }

  lemma TopLevelKeys()
    ensures Keys(Tree()) == ["one", "two"]
  {
  }

  /** The command tree of bowl.py:212: `one` at the top, `two` a group of `a`
      and `b`, so the usage lists `{one,two}` (bowl.py:213). */
  lemma TreeOfTestHandlers()
    ensures BuildTree([One(), TwoA(), TwoB()], HandlerPath) == Success(Tree())
    ensures Keys(Tree()) == ["one", "two"]
  {
    TopLevelKeys();
    TreeOfOneTwoA();
    NamePaths();
    InsertTwoB();
    BuildTreeTests.BuildTreeSnoc([One(), TwoA()], TwoB(), HandlerPath);
    assert [One(), TwoA()] + [TwoB()] == [One(), TwoA(), TwoB()];
  }

  lemma WalkOfGroupTwo()
    ensures WalkFrom([("a", Leaf(TwoA())), ("b", Leaf(TwoB()))], 0, ["two"])
         == [(["two", "a"], TwoA()), (["two", "b"], TwoB())]
  {
    var g: Dict<Handler> := [("a", Leaf(TwoA())), ("b", Leaf(TwoB()))];
    assert ["two"] + ["a"] == ["two", "a"];
    assert ["two"] + ["b"] == ["two", "b"];
    assert WalkFrom(g, 2, ["two"]) == [];
    assert WalkFrom(g, 1, ["two"]) == [(["two", "b"], TwoB())];
  }

  lemma WalkOfTestTree()
    ensures WalkTree(Group(Tree()), []) == [(["one"], One()), (["two", "a"], TwoA()), (["two", "b"], TwoB())]
  {
    var g: Dict<Handler> := [("a", Leaf(TwoA())), ("b", Leaf(TwoB()))];
    var t := Tree();
    WalkOfGroupTwo();
    assert [] + ["one"] == ["one"];
    assert [] + ["two"] == ["two"];
    assert WalkFrom(t, 2, []) == [];
    assert WalkFrom(t, 1, []) == WalkTree(Group(g), ["two"]);
    assert WalkFrom(t, 0, []) == [(["one"], One())] + WalkFrom(t, 1, []);
  }

  function TwoASignature(): Signature {
    Signature("help for two a", [ArgSpec("a", Some("x")), ArgSpec("b", Some("y")), ArgSpec("c", Some("z"))])
  }

  lemma TwoADocFacts()
    ensures ':' !in "help for two a"
    ensures AllSpace(Pad)
    ensures forall i :: 0 <= i < 3 ==> IsIdentifier(["a", "b", "c"][i]) && IsStripped(["x", "y", "z"][i])
  {
    var names := ["a", "b", "c"];
    var helps := ["x", "y", "z"];
    assert forall i :: 0 <= i < 3 ==> IsIdentifier(names[i]) && IsStripped(helps[i]);
  }

  lemma TwoASpecs()
    ensures HelpedSpecs(["a", "b", "c"], ["x", "y", "z"]) == TwoASignature().params
  {
  }

  /** `two_a`'s docstring describes the command and each of its three
      parameters (bowl.py:203-207). */
  lemma TwoADescribed()
    ensures Introspect(TwoA().doc, TwoA().args) == TwoASignature()
  {
    TwoADocFacts();
    IntrospectDocumented("help for two a", Pad, ["a", "b", "c"], ["x", "y", "z"]);
    TwoASpecs();
  }

  function TestSubcommands(): seq<Subcommand> {
    [ Subcommand(["one"], One(), Signature("", [])),
      Subcommand(["two", "a"], TwoA(), TwoASignature()),
      Subcommand(["two", "b"], TwoB(), Signature("", [])) ]
  }

  /** `one` and `two_b` have no docstring: empty description, no help. */
  lemma UndocumentedDescribed()
    ensures Introspect(One().doc, One().args) == Signature("", [])
    ensures Introspect(TwoB().doc, TwoB().args) == Signature("", [])
  {
  }

  /** `Describe` on a three-leaf walk, for any three leaves. */
  lemma DescribeThree(x: (seq<string>, Handler), y: (seq<string>, Handler), z: (seq<string>, Handler))
    requires DocOk(x.1) && DocOk(y.1) && DocOk(z.1)
    ensures Describe([x, y, z]) == [
      Subcommand(x.0, x.1, Introspect(x.1.doc, x.1.args)),
      Subcommand(y.0, y.1, Introspect(y.1.doc, y.1.args)),
      Subcommand(z.0, z.1, Introspect(z.1.doc, z.1.args))]
  {
  }

  lemma DescribeTestWalk()
    ensures Describe([(["one"], One()), (["two", "a"], TwoA()), (["two", "b"], TwoB())]) == TestSubcommands()
  {
    TwoADescribed();
    UndocumentedDescribed();
    DescribeThree((["one"], One()), (["two", "a"], TwoA()), (["two", "b"], TwoB()));
  }

  /** bowl.py:212-213: the parser gets one leaf subcommand per handler, in
      the order `add` meets them. */
  lemma BuildArgParserExample()
    ensures forall i :: 0 <= i < 3 ==> DocOk([One(), TwoA(), TwoB()][i])
    ensures Subcommands([One(), TwoA(), TwoB()]) == Success(TestSubcommands())
  {
    var hs := [One(), TwoA(), TwoB()];
    assert forall i :: 0 <= i < 3 ==> DocOk(hs[i]);
    TreeOfTestHandlers();
    WalkOfTestTree();
    DescribeTestWalk();
  }

  /** Binding three values to parameters `a`, `b`, `c`, whatever their help. */
  lemma BindABC(params: seq<ArgSpec>, x: string, y: string, z: string)
    requires |params| == 3 && params[0].name == "a" && params[1].name == "b" && params[2].name == "c"
    ensures DistinctNames(params)
    ensures Bind(params, [x, y, z]) == map["a" := Str(x), "b" := Str(y), "c" := Str(z)]
  {
    var b := Bind(params, [x, y, z]);
    assert b.Keys == {"a", "b", "c"};
  }

  /** The namespace of a leaf `a` with parameters `a`, `b`, `c`, and its
      dispatch. */
  lemma NamespaceABC(s: Subcommand, x: string, y: string, z: string)
    requires |s.path| > 0 && s.path[|s.path| - 1] == "a"
    requires var ps := s.signature.params;
      |ps| == 3 && ps[0].name == "a" && ps[1].name == "b" && ps[2].name == "c"
    ensures DistinctNames(s.signature.params)
    ensures LeafNamespace(s, [x, y, z])
         == map["COMMAND" := Str("a"), "a" := Str(x), "b" := Str(y), "c" := Str(z), "func" := Fn(s.handler)]
    ensures RunArgs(LeafNamespace(s, [x, y, z]))
         == Success(Call(Fn(s.handler), map["a" := Str(x), "b" := Str(y), "c" := Str(z)]))
  {
    BindABC(s.signature.params, x, y, z);
    assert "a" !in {CommandKey, FuncKey} && "b" !in {CommandKey, FuncKey} && "c" !in {CommandKey, FuncKey};
    DispatchReachesHandler(s, [x, y, z]);
    var ns := LeafNamespace(s, [x, y, z]);
    var m := map["COMMAND" := Str("a"), "a" := Str(x), "b" := Str(y), "c" := Str(z), "func" := Fn(s.handler)];
    assert ns.Keys == m.Keys;
  }

  /** bowl.py:215-217: `two a 1 2 3` parses to `COMMAND="a"`, the three
      values and `func=two_a`, and dispatching it calls `two_a` with
      `a="1", b="2", c="3"`. */
  lemma ParseAndDispatchExample()
    ensures var s := TestSubcommands()[1];
      && LeafNamespace(s, ["1", "2", "3"])
         == map["COMMAND" := Str("a"), "a" := Str("1"), "b" := Str("2"), "c" := Str("3"), "func" := Fn(TwoA())]
      && RunArgs(LeafNamespace(s, ["1", "2", "3"]))
         == Success(Call(Fn(TwoA()), map["a" := Str("1"), "b" := Str("2"), "c" := Str("3")]))
  {
    NamespaceABC(TestSubcommands()[1], "1", "2", "3");
  }

  /** bowl.py:214: `one` parses to `COMMAND="one"` and `func=one`, and is
      called with no arguments. */
  lemma ParseOneExample()
    ensures LeafNamespace(TestSubcommands()[0], []) == map["COMMAND" := Str("one"), "func" := Fn(One())]
    ensures RunArgs(LeafNamespace(TestSubcommands()[0], [])) == Success(Call(Fn(One()), map[]))
  {
    var s := TestSubcommands()[0];
    assert Bind(s.signature.params, []) == map[];
    DispatchReachesHandler(s, []);
  }
}
