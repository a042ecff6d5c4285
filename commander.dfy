/**
  The `Commander` base class: a command class after discovery, holding the
  parser objects it has built and the cache of subparsers groups keyed by
  head segment. The cache is never cleared, so a second run of `cmdline`
  finds the groups cached by the first.
 */
module Commands {
  import opened Wrappers
  import opened Names
  import opened Options
  import opened Discovery
  import opened Tree
  import opened Build

  class Commander {
    /** `__doc__`, the description of the top-level parser. */
    const doc: string
    /** `version`, shown by `-v/--version`. */
    const version: string
    /** `_argparse_levels`: only its truthiness is read. */
    const levels: int
    /** `_argparse_subcmds`, filled by discovery. */
    const subcmds: map<string, SubCmd>
    /** Every parser created so far. */
    var nodes: seq<Parser>
    /** Every subparsers group created so far. */
    var groups: seq<Group>
    /** `_argparse_structure`. */
    var structure: map<string, GroupId>

    function Snapshot(): State
      reads this
    {
      State(nodes, groups, structure)
    }

    ghost predicate Valid()
      reads this
    {
      WellFormed(Snapshot()) && NamedByKey(subcmds)
    }

    /** Creating the class: discovery over the class body `classdict`; no parser exists yet and the cache is empty. */
    constructor (classdict: map<string, Func>, doc: string, version: string, levels: int)
      ensures Valid() && Discovered(classdict, subcmds)
      ensures this.doc == doc && this.version == version && this.levels == levels
      ensures Snapshot() == State([], [], map[])
    {
      var found := Discover(classdict);
      this.doc := doc;
      this.version := version;
      this.levels := levels;
      subcmds := found;
      nodes := [];
      groups := [];
      structure := map[];
    }

    /** `add_parser(subparsers, subcmd, name)`. */
    method AddParser(g: GroupId, sc: SubCmd, name: Option<string>) returns (p: NodeId)
      requires Valid() && g < |groups|
      modifies this
      ensures Valid()
      ensures p == |old(nodes)|
      ensures Snapshot() == AddParserSpec(old(Snapshot()), g, sc, name)
    {
      var child := if name == None || name == Some("") then sc.name else name.value;
      p := |nodes|;
      nodes := nodes + [Parser(Doc(sc.func), [], None, None)];
      groups := groups[g := AddChoice(groups[g], child, p)];
      var i := 0;
      while i < |sc.options|
        invariant 0 <= i <= |sc.options|
        invariant nodes == old(nodes) + [Parser(Doc(sc.func), sc.options[..i], None, None)]
        invariant groups == old(groups)[g := AddChoice(old(groups)[g], child, p)]
        invariant structure == old(structure)
      {
        nodes := nodes[p := nodes[p].(options := nodes[p].options + [sc.options[i]])];
        assert sc.options[..i + 1] == sc.options[..i] + [sc.options[i]];
        i := i + 1;
      }
      assert sc.options[..|sc.options|] == sc.options;
      nodes := nodes[p := nodes[p].(handler := Some(sc.func))];
    }

    /** `parser.add_subparsers(title=..., description=...)` on the parser `p`: a new empty group owned by `p`. */
    method AddSubparsers(p: NodeId, title: string, description: string) returns (grp: GroupId)
      requires Valid() && p < |nodes|
      modifies this
      ensures Valid()
      ensures grp == |old(groups)|
      ensures nodes == old(nodes)[p := old(nodes)[p].(subgroup := Some(grp))]
      ensures groups == old(groups) + [Group(title, description, map[], [])]
      ensures structure == old(structure)
    {
      grp := |groups|;
      groups := groups + [Group(title, description, map[], [])];
      nodes := nodes[p := nodes[p].(subgroup := Some(grp))];
    }

    /** `parse_subparsers(subparsers, subcmd, name)`. */
    method ParseSubparsers(g: GroupId, sc: SubCmd, name: string)
      requires Valid() && g < |groups|
      modifies this
      ensures Valid()
      ensures Snapshot() == ParseSpec(old(Snapshot()), g, sc, name)
    {
      var parts := Split(name);
      var head, tail := parts[0], parts[1..];
      var subcmd := sc;
      if tail == [] {
        var p := AddParser(g, subcmd, None);
        if head !in structure {
          var grp := AddSubparsers(p, head + " subcommands", Doc(subcmd.func));
          structure := structure[head := grp];
        }
      } else if head in structure {
        var cached := structure[head];
        var _ := AddParser(cached, subcmd, Some(Join(tail)));
      } else {
        subcmd := Dummy(head);
        var p := AddParser(g, subcmd, Some(head));
        var grp := AddSubparsers(p, head + " subcommands", Doc(subcmd.func));
        structure := structure[head := grp];
        var cached := structure[head];
        var _ := AddParser(cached, subcmd, Some(Join(tail)));
      }
    }

    /**
      `cmdline()` given the command words of the command line: builds the
      top-level parser and its group, registers every command in sorted
      order (flat when the level setting is falsy), then dispatches the
      words.
     */
    method Cmdline(words: seq<string>) returns (outcome: Dispatch)
      requires Valid()
      modifies this
      ensures Valid()
      ensures Snapshot() == Built(old(Snapshot()), doc, version, subcmds, levels)
      ensures outcome == Walk(Snapshot(), |old(groups)|, words, None)
    {
      ghost var s0 := Snapshot();
      var root := |nodes|;
      nodes := nodes + [Parser(doc, [VersionOption(version)], None, None)];
      var top := AddSubparsers(root, "subcommands", "valid subcommands");
      ghost var start := Snapshot();
      assert start == Start(s0, doc, version);
      var names := SortedNames(subcmds.Keys);
      assert forall n :: n in names ==> n in subcmds by {
        SortListsKeys(subcmds.Keys);
      }
      var i := 0;
      ghost var cur := start;
      while i < |names|
        invariant 0 <= i <= |names|
        invariant Valid() && top < |groups| && cur == Snapshot()
        invariant Register(cur, top, subcmds, names[i..], levels) == Register(start, top, subcmds, names, levels)
      {
        var name := names[i];
        var subcmd := subcmds[name];
        if levels == 0 {
          var _ := AddParser(top, subcmd, None);
        } else {
          ParseSubparsers(top, subcmd, name);
        }
        ghost var next := Snapshot();
        assert next == Step(cur, top, subcmd, name, levels);
        RegisterUnfold(cur, next, top, subcmds, names, levels, i);
        cur := next;
        i := i + 1;
      }
      assert names[|names|..] == [];
      outcome := Walk(Snapshot(), top, words, None);
    }
  }
}
