/** `run_args` (bowl.py:354-358): the parsed namespace, minus the routing
    entries argparse added, becomes the handler's keyword arguments. The call
    itself is not modelled: the handler and its arguments are returned. */
module Dispatch {
  import opened Wrappers

  /** The subparsers' `dest` (bowl.py:176). */
  const CommandKey: string := "COMMAND"

  /** The default every leaf parser sets (bowl.py:187). */
  const FuncKey: string := "func"

  /** The KeyError a `del` of a missing key raises. */
  datatype DispatchError = KeyError(key: string)

  /** `args.func(**kwargs)`, not yet made. */
  datatype Call<V> = Call(handler: V, kwargs: map<string, V>)

  /** `run_args`: copy the namespace, delete `COMMAND` and then `func`, and
      call `func` with what is left. Nothing checks the remaining keys against
      the handler's parameters. */
  function RunArgs<V>(namespace: map<string, V>): (r: Result<Call<V>, DispatchError>)
    ensures r.Success? <==> CommandKey in namespace && FuncKey in namespace
    ensures r.Failure? ==> r.error == KeyError(if CommandKey !in namespace then CommandKey else FuncKey)
    ensures r.Success? ==> r.value.handler == namespace[FuncKey]
    ensures r.Success? ==> r.value.kwargs.Keys == namespace.Keys - {CommandKey, FuncKey}
    ensures r.Success? ==> forall k :: k in r.value.kwargs ==> r.value.kwargs[k] == namespace[k]
  {
    if CommandKey !in namespace then Failure(KeyError(CommandKey))
    else
      var kwargs := namespace - {CommandKey};
      if FuncKey !in kwargs then Failure(KeyError(FuncKey))
      else Success(Call(namespace[FuncKey], kwargs - {FuncKey}))
  }

  /** Nothing is lost: putting the two routing entries back into the keyword
      arguments gives the original namespace. */
  lemma RunArgsRestores<V>(namespace: map<string, V>)
    requires CommandKey in namespace && FuncKey in namespace
    ensures var c := RunArgs(namespace).value;
      c.kwargs[CommandKey := namespace[CommandKey]][FuncKey := c.handler] == namespace
  {
    var c := RunArgs(namespace).value;
    var back := c.kwargs[CommandKey := namespace[CommandKey]][FuncKey := c.handler];
    assert back.Keys == namespace.Keys;
  }

  /** The case of bowl.py:370-371: `b` is not one of `f`'s named parameters
      and is passed through all the same. */
  lemma RunArgsPassesExtras()
    ensures RunArgs(map["COMMAND" := "f", "func" := "<f>", "a" := "1", "b" := "2"])
         == Success(Call("<f>", map["a" := "1", "b" := "2"]))
  {
    var ns := map["COMMAND" := "f", "func" := "<f>", "a" := "1", "b" := "2"];
    assert "a" != "COMMAND" && "a" != "func" && "b" != "COMMAND" && "b" != "func";
    assert ns.Keys == {"COMMAND", "func", "a", "b"};
    var kw := RunArgs(ns).value.kwargs;
    assert kw.Keys == {"a", "b"};
    assert kw["a"] == "1" && kw["b"] == "2";
    assert kw == map["a" := "1", "b" := "2"];
  }
}
