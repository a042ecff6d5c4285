/**
  The remainder child of a synthesized head. When `parse_subparsers` meets
  an underscored name whose head is not cached, it rebinds the entry to the
  help-stub placeholder before adding the remainder, so the remainder child
  carries the stub rather than the command it was registered for. The
  evidently intended behaviour registers the entry itself under the
  remainder, as it is registered under a cached head.
 */
module Findings {
  import opened Wrappers
  import opened Names
  import opened Options
  import opened Discovery
  import opened Tree
  import opened Build

  /**
    As written, for a class whose only command is underscored: one run of
    `cmdline` with a truthy level setting makes `head rest` reach the help
    stub of the head, never the command's own handler.
   */
  lemma LoneUnderscoredCommand(s: State, description: string, version: string, n: string, f: Func, opts: seq<OptionDecl>, levels: int)
    requires WellFormed(s) && levels != 0
    requires Tail(n) != [] && Join(Tail(n)) != "" && Head(n) !in s.structure
    ensures var r := Built(s, description, version, map[n := SubCmd(n, Command(f), opts)], levels);
      && Walk(r, |s.groups|, [Head(n), Join(Tail(n))], None) == Call(HelpStub(Head(n)))
      && Walk(r, |s.groups|, [Head(n), Join(Tail(n))], None) != Call(Command(f))
  {
    var sc := SubCmd(n, Command(f), opts);
    var subcmds := map[n := sc];
    assert subcmds.Keys == {n};
    assert IsLeast(n, {n});
    SortUnfold({n}, n);
    assert Sort(subcmds.Keys) == [n];
    var st := Start(s, description, version);
    var top := |s.groups|;
    assert Register(st, top, subcmds, [n], levels) == Step(st, top, sc, n, levels);
    ParseNewHead(st, top, sc, n, None);
  }

  /** `parse_subparsers` with the remainder of a new head registered for the entry itself. */
  function ParseIntended(s: State, g: GroupId, sc: SubCmd, name: string): (r: State)
    requires WellFormed(s) && g < |s.groups|
    ensures WellFormed(r)
    ensures |r.nodes| > |s.nodes| && |r.groups| >= |s.groups|
  {
    var head := Head(name);
    var tail := Tail(name);
    if tail == [] || head in s.structure then ParseSpec(s, g, sc, name)
    else
      var s1 := AddParserSpec(s, g, Dummy(head), Some(head));
      var s2 := OpenGroup(s1, |s.nodes|, head, Doc(Dummy(head).func));
      AddParserSpec(s2, s2.structure[head], sc, Some(Join(tail)))
  }

  /**
    Corrected: under a newly synthesized head, the head alone still reaches
    the help stub, while `head rest` reaches the entry's own handler through
    a parser carrying the entry's options; the cache gains the head only.
   */
  lemma IntendedNewHead(s: State, g: GroupId, sc: SubCmd, name: string, current: Option<Handler>)
    requires WellFormed(s) && g < |s.groups|
    requires Tail(name) != [] && Head(name) !in s.structure
    ensures var r := ParseIntended(s, g, sc, name);
      var head := Head(name);
      var leaf := ChildName(Some(Join(Tail(name))), sc);
      var n := |s.nodes|;
      && r.groups[g].choices == s.groups[g].choices[head := n]
      && r.structure == s.structure[head := |s.groups|]
      && |r.nodes| == n + 2
      && r.nodes[n] == Parser(head + " commands", [], Some(HelpStub(head)), Some(|s.groups|))
      && r.groups[|s.groups|].choices == map[leaf := n + 1]
      && r.nodes[n + 1] == LeafParser(sc)
      && Walk(r, g, [head], current) == Call(HelpStub(head))
      && Walk(r, g, [head, leaf], current) == Call(sc.func)
  {
    var head := Head(name);
    var n := |s.nodes|;
    var s1 := AddParserSpec(s, g, Dummy(head), Some(head));
    AddParserDispatch(s, g, Dummy(head), Some(head), current);
    var s2 := OpenGroup(s1, n, head, Doc(Dummy(head).func));
    var leaf := ChildName(Some(Join(Tail(name))), sc);
    var r := AddParserSpec(s2, s2.structure[head], sc, Some(Join(Tail(name))));
    assert r == ParseIntended(s, g, sc, name);
    assert r.nodes[n] == s2.nodes[n];
    assert r.nodes[n + 1] == LeafParser(sc);
    assert r.groups[|s.groups|].choices == map[leaf := n + 1];
    assert Walk(r, g, [head], current) == Walk(r, |s.groups|, [], Some(HelpStub(head)));
    assert Walk(r, g, [head, leaf], current) == Walk(r, |s.groups|, [leaf], Some(HelpStub(head)));
  }

  /**
    The correction changes only the remainder child: it builds the same
    arena shape, cache, head parser and older groups as the code as written,
    and differs from it in the parser of the remainder. When the remainder
    is non-empty the groups are the same too; when it is empty (`x_`), the
    falsy name falls back to the entry's own name, so the slot in the new
    group is `x_` where the code as written, falling back to the
    placeholder's name, uses `x`.
   */
  lemma IntendedDiffersOnlyAtLeaf(s: State, g: GroupId, sc: SubCmd, name: string)
    requires WellFormed(s) && g < |s.groups|
    ensures var r := ParseIntended(s, g, sc, name);
      var w := ParseSpec(s, g, sc, name);
      && |r.nodes| == |w.nodes| && |r.groups| == |w.groups| && r.structure == w.structure
      && r.nodes[..|w.nodes| - 1] == w.nodes[..|w.nodes| - 1]
      && r.groups[..|s.groups|] == w.groups[..|s.groups|]
      && (Tail(name) == [] || Head(name) in s.structure ==> r == w)
      && (Tail(name) != [] && Head(name) !in s.structure ==>
            && w.nodes[|w.nodes| - 1] == LeafParser(Dummy(Head(name)))
            && r.nodes[|r.nodes| - 1] == LeafParser(sc)
            && (Join(Tail(name)) != "" ==> r.groups == w.groups)
            && (Join(Tail(name)) == "" ==>
                  && w.groups[|s.groups|].listing == [Head(name)]
                  && r.groups[|s.groups|].listing == [sc.name]))
  {
    if Tail(name) != [] && Head(name) !in s.structure {
      var head := Head(name);
      var n := |s.nodes|;
      var s1 := AddParserSpec(s, g, Dummy(head), Some(head));
      var s2 := OpenGroup(s1, n, head, Doc(Dummy(head).func));
      var r := ParseIntended(s, g, sc, name);
      var w := ParseSpec(s, g, sc, name);
      assert r == AddParserSpec(s2, s2.structure[head], sc, Some(Join(Tail(name))));
      assert w == AddParserSpec(s2, s2.structure[head], Dummy(head), Some(Join(Tail(name))));
      assert r.nodes[..n + 1] == s2.nodes == w.nodes[..n + 1];
    }
  }
}
