/** How bowl.py turns a handler's docstring and positional parameters into a
    description and argument specs (bowl.py:255-275, 319-327). The docstring
    arrives already dedented and split into lines, and the parameter names
    arrive as a list: the reflection that produces them is not modelled. */
module Introspection {
  import opened Wrappers
  import opened Text

  /** One `ArgumentParserAddArgumentArguments(name_or_flags=[name])`, with
      `kwargs["help"]` present exactly when `help` is. */
  datatype ArgSpec = ArgSpec(name: string, help: Option<string>)

  /** What `description_and_parameters_from_function` returns. */
  datatype Signature = Signature(description: string, params: seq<ArgSpec>)

  /** `parameter_name_and_description_from_docstring_line` (bowl.py:319-327):
      split at the first colon, strip both halves, and keep the pair only when
      the left half is an identifier. */
  function ParseHelpLine(line: string): (r: Option<(string, string)>)
    ensures ':' !in line ==> r.None?
    ensures r.Some? ==> IsIdentifier(r.value.0) && IsStripped(r.value.1)
  {
    match IndexOf(line, ':')
    case None => None
    case Some(i) =>
      var left := Strip(line[..i]);
      var right := Strip(line[i + 1..]);
      if IsIdentifier(left) then Some((left, right)) else None
  }

  /** Splitting happens at the first colon only: for a line `left:right` with
      no colon in `left`, the result depends on `left` being an identifier once
      stripped, and `right` may hold further colons. */
  lemma ParseHelpLineSplit(left: string, right: string)
    requires ':' !in left
    ensures ParseHelpLine(left + ":" + right)
         == if IsIdentifier(Strip(left)) then Some((Strip(left), Strip(right))) else None
  {
    var line := left + ":" + right;
    assert line[..|left|] == left;
    assert line[|left| + 1..] == right;
    IndexOfFirst(line, ':', |left|);
  }

  lemma IdentifierPlain(n: string)
    requires IsIdentifier(n)
    ensures ':' !in n && NoSpace(n) && IsStripped(n)
  {
  }

  /** The round trip the docstring convention relies on: a line written as
      `name: help`, with any whitespace around either part, parses back to
      exactly `(name, help)`. */
  lemma ParseHelpLineFormatted(a: string, name: string, b: string, c: string, help: string, d: string)
    requires AllSpace(a) && AllSpace(b) && AllSpace(c) && AllSpace(d)
    requires IsIdentifier(name) && IsStripped(help)
    ensures ParseHelpLine(a + name + b + ":" + c + help + d) == Some((name, help))
  {
    IdentifierPlain(name);
    var left := a + name + b;
    assert ':' !in left by {
      assert forall k :: 0 <= k < |left| ==> left[k] != ':' by {
        forall k | 0 <= k < |left| ensures left[k] != ':' {
          if k < |a| {
            assert left[k] == a[k];
          } else if k < |a| + |name| {
            assert left[k] == name[k - |a|];
          } else {
            assert left[k] == b[k - |a| - |name|];
          }
        }
      }
    }
    assert a + name + b + ":" + c + help + d == left + ":" + (c + help + d);
    ParseHelpLineSplit(left, c + help + d);
    StripPadded(a, name, b);
    StripPadded(c, help, d);
  }

  /** What `parameter_name_and_description_from_docstring_line` made of each
      docstring line. */
  function ParsedLines(lines: seq<string>): seq<Option<(string, string)>>
  {
    seq(|lines|, j requires 0 <= j < |lines| => ParseHelpLine(lines[j]))
  }

  /** `param_descs` built from the parsed lines, in order: a later pair
      overwrites an earlier one with the same name. */
  function TableOf(parsed: seq<Option<(string, string)>>): map<string, string>
    decreases |parsed|
  {
    if |parsed| == 0 then map[]
    else
      var m := TableOf(parsed[..|parsed| - 1]);
      match parsed[|parsed| - 1]
      case None => m
      case Some((name, help)) => m[name := help]
  }

  /** `param_descs` after the loop of bowl.py:263-267: every line, the first
      one included, is tried. */
  function HelpTable(lines: seq<string>): map<string, string> {
    TableOf(ParsedLines(lines))
  }

  predicate Names(p: Option<(string, string)>, name: string) {
    p.Some? && p.value.0 == name
  }

  /** Some line names `name`. */
  predicate NamedIn(parsed: seq<Option<(string, string)>>, name: string) {
    exists j :: 0 <= j < |parsed| && Names(parsed[j], name)
  }

  /** The last line naming `name` gives it the help text `help`. */
  predicate LastNamedWith(parsed: seq<Option<(string, string)>>, name: string, help: string) {
    exists j :: && 0 <= j < |parsed|
                && parsed[j] == Some((name, help))
                && forall k :: j < k < |parsed| ==> !Names(parsed[k], name)
  }

  lemma NamedSnoc(parsed: seq<Option<(string, string)>>, name: string, help: string)
    requires |parsed| > 0
    ensures var n := |parsed| - 1;
      && (NamedIn(parsed, name) <==> NamedIn(parsed[..n], name) || Names(parsed[n], name))
      && (!Names(parsed[n], name) ==> (LastNamedWith(parsed, name, help) <==> LastNamedWith(parsed[..n], name, help)))
      && (parsed[n] == Some((name, help)) ==> LastNamedWith(parsed, name, help))
  {
    var n := |parsed| - 1;
    var init := parsed[..n];
    assert forall j :: 0 <= j < n ==> init[j] == parsed[j];
    if NamedIn(parsed, name) && !Names(parsed[n], name) {
      var j :| 0 <= j < |parsed| && Names(parsed[j], name);
      assert Names(init[j], name);
    }
    if !Names(parsed[n], name) && LastNamedWith(parsed, name, help) {
      var j :| && 0 <= j < |parsed|
               && parsed[j] == Some((name, help))
               && forall k :: j < k < |parsed| ==> !Names(parsed[k], name);
      assert init[j] == Some((name, help));
    }
    if !Names(parsed[n], name) && LastNamedWith(init, name, help) {
      var j :| && 0 <= j < n
               && init[j] == Some((name, help))
               && forall k :: j < k < n ==> !Names(init[k], name);
      assert parsed[j] == Some((name, help));
    }
  }

  /** A name has help text exactly when some line names it, and the text is
      the one on the last line that does. */
  lemma {:induction false} TableLastWins(parsed: seq<Option<(string, string)>>, name: string)
    ensures name in TableOf(parsed) <==> NamedIn(parsed, name)
    ensures name in TableOf(parsed) ==> LastNamedWith(parsed, name, TableOf(parsed)[name])
    decreases |parsed|
  {
    if |parsed| == 0 {
      return;
    }
    var n := |parsed| - 1;
    TableLastWins(parsed[..n], name);
    if name in TableOf(parsed) {
      NamedSnoc(parsed, name, TableOf(parsed)[name]);
    } else {
      NamedSnoc(parsed, name, "");
    }
  }

  /** The `for pname in spec.args` loop (bowl.py:270-274): one spec per
      parameter, in order; help comes from the table, and `pop` removes it, so
      a repeated name gets it only the first time. */
  function Specs(args: seq<string>, table: map<string, string>): (r: seq<ArgSpec>)
    ensures |r| == |args|
    ensures forall i :: 0 <= i < |args| ==> r[i].name == args[i]
    ensures forall i :: 0 <= i < |args| ==>
      r[i].help == if args[i] in args[..i] || args[i] !in table then None else Some(table[args[i]])
    decreases |args|
  {
    if |args| == 0 then []
    else
      var a := args[0];
      var rest := if a in table then Specs(args[1..], table - {a}) else Specs(args[1..], table);
      var r := [ArgSpec(a, if a in table then Some(table[a]) else None)] + rest;
      SeenBefore(args);
      r
  }

  /** A name occurs before position `i` exactly when it is the first name
      or occurs before position `i - 1` of the rest. */
  lemma SeenBefore(args: seq<string>)
    requires |args| > 0
    ensures forall i :: 1 <= i < |args| ==>
      (args[i] in args[..i] <==> args[i] == args[0] || args[1..][i - 1] in args[1..][..i - 1])
  {
    forall i | 1 <= i < |args|
      ensures args[i] in args[..i] <==> args[i] == args[0] || args[1..][i - 1] in args[1..][..i - 1]
    {
      assert args[..i] == [args[0]] + args[1..][..i - 1];
    }
  }

  /** `description_and_parameters_from_function` (bowl.py:255-275) over an
      explicit docstring (`None` when absent or empty) and parameter list. */
  function Introspect(doc: Option<seq<string>>, args: seq<string>): (s: Signature)
    requires doc.Some? ==> |doc.value| > 0
    ensures s.description == if doc.Some? then doc.value[0] else ""
    ensures |s.params| == |args|
    ensures forall i :: 0 <= i < |args| ==> s.params[i].name == args[i]
    ensures doc.None? ==> forall i :: 0 <= i < |args| ==> s.params[i].help.None?
  {
    var lines := if doc.Some? then doc.value else [];
    Signature(if doc.Some? then doc.value[0] else "", Specs(args, HelpTable(lines)))
  }

  /** The help of parameter `i`: present exactly when this is the first
      occurrence of its name and some docstring line names it; the text is
      that of the last such line. */
  lemma IntrospectHelp(doc: Option<seq<string>>, args: seq<string>, i: nat)
    requires doc.Some? ==> |doc.value| > 0
    requires i < |args|
    ensures var lines := if doc.Some? then doc.value else [];
      var h := Introspect(doc, args).params[i].help;
      && (h.Some? <==> args[i] !in args[..i] && NamedIn(ParsedLines(lines), args[i]))
      && (h.Some? ==> LastNamedWith(ParsedLines(lines), args[i], h.value))
  {
    var lines := if doc.Some? then doc.value else [];
    TableLastWins(ParsedLines(lines), args[i]);
  }

  lemma SpecsIgnoresOther(args: seq<string>, table: map<string, string>, name: string, help: string)
    requires name !in args
    ensures Specs(args, table[name := help]) == Specs(args, table)
  {
    var r, r' := Specs(args, table[name := help]), Specs(args, table);
    forall i | 0 <= i < |args| ensures r[i] == r'[i] {
      assert args[i] != name;
    }
  }

  /** A docstring line naming something that is not a parameter changes
      nothing: appending it leaves the description and every spec as they
      were. */
  lemma IntrospectIgnoresOtherNames(lines: seq<string>, line: string, args: seq<string>)
    requires |lines| > 0
    requires ParseHelpLine(line).Some? ==> ParseHelpLine(line).value.0 !in args
    ensures Introspect(Some(lines + [line]), args) == Introspect(Some(lines), args)
  {
    var all := lines + [line];
    var parsed := ParsedLines(all);
    assert parsed[..|lines|] == ParsedLines(lines);
    assert parsed[|lines|] == ParseHelpLine(line);
    assert Introspect(Some(all), args).description == Introspect(Some(lines), args).description;
    match ParseHelpLine(line)
    case None =>
      assert HelpTable(all) == HelpTable(lines);
    case Some((name, help)) =>
      assert HelpTable(all) == HelpTable(lines)[name := help];
      SpecsIgnoresOther(args, HelpTable(lines), name, help);
  }

  /** Docstring lines `pad + name + ": " + help`, one per parameter. */
  function HelpLines(pad: string, names: seq<string>, helps: seq<string>): seq<string>
    requires |names| == |helps|
  {
    seq(|names|, i requires 0 <= i < |names| => pad + names[i] + ": " + helps[i])
  }

  lemma FormattedLine(pad: string, name: string, help: string)
    requires AllSpace(pad) && IsIdentifier(name) && IsStripped(help)
    ensures ParseHelpLine(pad + name + ": " + help) == Some((name, help))
  {
    assert AllSpace(" ") && AllSpace("");
    ParseHelpLineFormatted(pad, name, "", " ", help, "");
    var x := pad + name;
    assert x + "" == x;
    assert x + ":" + " " == x + ": ";
    assert x + ": " + help + "" == x + ": " + help;
  }

  /** A description line, a blank line, and one help line per parameter. */
  function DocumentedDoc(desc: string, pad: string, names: seq<string>, helps: seq<string>): (r: seq<string>)
    requires |names| == |helps|
    ensures |r| > 0
  {
    [desc, ""] + HelpLines(pad, names, helps)
  }

  /** One spec per parameter, each with its help text. */
  function HelpedSpecs(names: seq<string>, helps: seq<string>): seq<ArgSpec>
    requires |names| == |helps|
  {
    seq(|names|, i requires 0 <= i < |names| => ArgSpec(names[i], Some(helps[i])))
  }

  predicate DocumentedBy(parsed: seq<Option<(string, string)>>, names: seq<string>, helps: seq<string>) {
    && |parsed| == |names| + 2
    && |helps| == |names|
    && parsed[0] == None && parsed[1] == None
    && forall k :: 2 <= k < |parsed| ==> parsed[k] == Some((names[k - 2], helps[k - 2]))
  }

  lemma DocumentedParsed(desc: string, pad: string, names: seq<string>, helps: seq<string>)
    requires ':' !in desc && AllSpace(pad)
    requires |names| == |helps|
    requires forall i :: 0 <= i < |names| ==> IsIdentifier(names[i]) && IsStripped(helps[i])
    ensures DocumentedBy(ParsedLines(DocumentedDoc(desc, pad, names, helps)), names, helps)
  {
    DocumentedHead(desc, pad, names, helps);
    DocumentedTail(desc, pad, names, helps);
    ParsedShape(DocumentedDoc(desc, pad, names, helps), names, helps);
  }

  lemma DocumentedHead(desc: string, pad: string, names: seq<string>, helps: seq<string>)
    requires ':' !in desc && |names| == |helps|
    ensures var lines := DocumentedDoc(desc, pad, names, helps);
      |lines| == |names| + 2 && ParseHelpLine(lines[0]) == None && ParseHelpLine(lines[1]) == None
  {
    var lines := DocumentedDoc(desc, pad, names, helps);
    assert lines[0] == desc && lines[1] == "";
  }

  lemma DocumentedTail(desc: string, pad: string, names: seq<string>, helps: seq<string>)
    requires AllSpace(pad) && |names| == |helps|
    requires forall i :: 0 <= i < |names| ==> IsIdentifier(names[i]) && IsStripped(helps[i])
    ensures var lines := DocumentedDoc(desc, pad, names, helps);
      forall k :: 2 <= k < |lines| ==> ParseHelpLine(lines[k]) == Some((names[k - 2], helps[k - 2]))
  {
    var help := HelpLines(pad, names, helps);
    var lines := DocumentedDoc(desc, pad, names, helps);
    forall k | 2 <= k < |lines| ensures ParseHelpLine(lines[k]) == Some((names[k - 2], helps[k - 2])) {
      assert lines[k] == help[k - 2];
      HelpLineParsed(pad, names, helps, k - 2);
    }
  }

  lemma ParsedShape(lines: seq<string>, names: seq<string>, helps: seq<string>)
    requires |names| == |helps| && |lines| == |names| + 2
    requires ParseHelpLine(lines[0]) == None && ParseHelpLine(lines[1]) == None
    requires forall k :: 2 <= k < |lines| ==> ParseHelpLine(lines[k]) == Some((names[k - 2], helps[k - 2]))
    ensures DocumentedBy(ParsedLines(lines), names, helps)
  {
  }

  lemma HelpLineParsed(pad: string, names: seq<string>, helps: seq<string>, i: nat)
    requires AllSpace(pad) && |names| == |helps| && i < |names|
    requires IsIdentifier(names[i]) && IsStripped(helps[i])
    ensures ParseHelpLine(HelpLines(pad, names, helps)[i]) == Some((names[i], helps[i]))
  {
    FormattedLine(pad, names[i], helps[i]);
  }

  lemma DocumentedHelp(parsed: seq<Option<(string, string)>>, names: seq<string>, helps: seq<string>, i: nat)
    requires DocumentedBy(parsed, names, helps)
    requires forall i, j :: 0 <= i < j < |names| ==> names[i] != names[j]
    requires i < |names|
    ensures NamedIn(parsed, names[i])
    ensures forall h :: LastNamedWith(parsed, names[i], h) ==> h == helps[i]
  {
    assert Names(parsed[i + 2], names[i]);
    forall h | LastNamedWith(parsed, names[i], h) ensures h == helps[i] {
      var j :| && 0 <= j < |parsed|
               && parsed[j] == Some((names[i], h))
               && forall k :: j < k < |parsed| ==> !Names(parsed[k], names[i]);
      assert j == i + 2;
    }
  }

  /** The docstring convention end to end (bowl.py:297-316): a description
      line, a blank line, then one `name: help` line per parameter, in any
      indentation, gives every parameter exactly its help text. */
  lemma IntrospectDocumented(desc: string, pad: string, names: seq<string>, helps: seq<string>)
    requires ':' !in desc && AllSpace(pad)
    requires |names| == |helps|
    requires forall i :: 0 <= i < |names| ==> IsIdentifier(names[i]) && IsStripped(helps[i])
    requires forall i, j :: 0 <= i < j < |names| ==> names[i] != names[j]
    ensures Introspect(Some(DocumentedDoc(desc, pad, names, helps)), names)
         == Signature(desc, HelpedSpecs(names, helps))
  {
    var lines := DocumentedDoc(desc, pad, names, helps);
    DocumentedParsed(desc, pad, names, helps);
    var s := Introspect(Some(lines), names);
    var want := HelpedSpecs(names, helps);
    forall i | 0 <= i < |names| ensures s.params[i] == want[i] {
      DocumentedHelp(ParsedLines(lines), names, helps, i);
      IntrospectHelp(Some(lines), names, i);
      assert names[i] !in names[..i];
    }
  }

  /** One spec per parameter, none with help text. */
  function UnhelpedSpecs(names: seq<string>): seq<ArgSpec>
  {
    seq(|names|, i requires 0 <= i < |names| => ArgSpec(names[i], None))
  }

  /** A one-line docstring without a colon (bowl.py:281-295) is the whole
      description, and no parameter gets help. */
  lemma IntrospectUndocumented(desc: string, names: seq<string>)
    requires ':' !in desc
    ensures Introspect(Some([desc]), names) == Signature(desc, UnhelpedSpecs(names))
  {
    var parsed := ParsedLines([desc]);
    assert parsed == [None];
    assert parsed[..0] == [];
    assert TableOf(parsed) == TableOf(parsed[..0]) == map[];
    var s := Introspect(Some([desc]), names);
    assert s.params == UnhelpedSpecs(names);
  }
}
