/**
  The parser tree that the builder grows, and how a parsed command line is
  dispatched through it.

  argparse's parser objects are held abstractly in an arena: a parser is a
  node (help text, option declarations, the `func` default if one was set,
  the subparsers group it owns if any) and a subparsers group maps child names
  to nodes. Nodes and groups are named by their index in the arena, so the
  cache of groups keyed by head segment (`structure`) can keep pointing at
  groups of a tree built by an earlier run, as the shared class-level cache
  of the source does.
 */
module Tree {
  import opened Wrappers
  import opened Names
  import opened Options
  import opened Discovery

  type NodeId = nat
  type GroupId = nat

  datatype Parser = Parser(help: string, options: seq<OptionDecl>, handler: Option<Handler>, subgroup: Option<GroupId>)

  /** A subparsers group: its children by name, and the names in the order they were added (help order). */
  datatype Group = Group(title: string, description: string, choices: map<string, NodeId>, listing: seq<string>)

  /** Every parser and group created so far, and the cache of groups by head segment. */
  datatype State = State(nodes: seq<Parser>, groups: seq<Group>, structure: map<string, GroupId>)

  /** Every reference inside the arena points into it. */
  ghost predicate WellFormed(s: State)
  {
    && (forall i :: 0 <= i < |s.nodes| && s.nodes[i].subgroup.Some? ==> s.nodes[i].subgroup.value < |s.groups|)
    && (forall g, c :: 0 <= g < |s.groups| && c in s.groups[g].choices ==> s.groups[g].choices[c] < |s.nodes|)
    && (forall h :: h in s.structure ==> s.structure[h] < |s.groups|)
  }

  /** The child name `add_parser` uses: `name`, or the entry's own name when `name` is falsy (`None` or `""`). */
  function ChildName(name: Option<string>, sc: SubCmd): (c: string)
    ensures c == sc.name || (name.Some? && c == name.value)
    ensures c == "" ==> sc.name == ""
    ensures name.Some? && name.value != "" ==> c == name.value
  {
    if name == None || name == Some("") then sc.name else name.value
  }

  /** The parser `add_parser` creates for an entry: its doc as help, its options in order, its handler as `func`. */
  function LeafParser(sc: SubCmd): Parser
  {
    Parser(Doc(sc.func), sc.options, Some(sc.func), None)
  }

  function AddChoice(grp: Group, c: string, p: NodeId): Group
  {
    grp.(choices := grp.choices[c := p], listing := grp.listing + [c])
  }

  /** `add_parser(subparsers, subcmd, name)`: one new parser, registered in group `g`. */
  function AddParserSpec(s: State, g: GroupId, sc: SubCmd, name: Option<string>): (r: State)
    requires WellFormed(s) && g < |s.groups|
    ensures WellFormed(r)
    ensures |r.nodes| == |s.nodes| + 1 && |r.groups| == |s.groups|
  {
    s.(nodes := s.nodes + [LeafParser(sc)],
       groups := s.groups[g := AddChoice(s.groups[g], ChildName(name, sc), |s.nodes|)])
  }

  /**
    `structure[head] = parser.add_subparsers(title=f"{head} subcommands", ...)`
    on the parser `p`: a new empty group owned by `p`, cached under `head`.
   */
  function OpenGroup(s: State, p: NodeId, head: string, description: string): (r: State)
    requires WellFormed(s) && p < |s.nodes|
    ensures WellFormed(r)
    ensures |r.nodes| == |s.nodes| && |r.groups| == |s.groups| + 1
    ensures head in r.structure && r.structure[head] == |s.groups|
  {
    s.(nodes := s.nodes[p := s.nodes[p].(subgroup := Some(|s.groups|))],
       groups := s.groups + [Group(head + " subcommands", description, map[], [])],
       structure := s.structure[head := |s.groups|])
  }

  /** The placeholder entry the source builds for a head that has no handler of its own. */
  function Dummy(head: string): SubCmd
  {
    SubCmd(head, HelpStub(head), [])
  }

  /**
    `parse_subparsers(subparsers, subcmd, name)`: the name is split once at
    its first separator. A bare name becomes a child of `g` (and caches a
    group of its own under its name, unless one is cached already). For an
    underscored name whose head is cached, the remainder becomes one child
    of the cached group; otherwise a help-stub head is synthesized under `g`,
    its group is cached, and the remainder becomes a child of that group
    carrying the stub entry (the source rebinds `subcmd` to the stub).
   */
  function ParseSpec(s: State, g: GroupId, sc: SubCmd, name: string): (r: State)
    requires WellFormed(s) && g < |s.groups|
    ensures WellFormed(r)
    ensures |r.nodes| > |s.nodes| && |r.groups| >= |s.groups|
  {
    var head := Head(name);
    var tail := Tail(name);
    if tail == [] then
      var s1 := AddParserSpec(s, g, sc, None);
      if head !in s1.structure then OpenGroup(s1, |s.nodes|, head, Doc(sc.func)) else s1
    else if head in s.structure then
      AddParserSpec(s, s.structure[head], sc, Some(Join(tail)))
    else
      var s1 := AddParserSpec(s, g, Dummy(head), Some(head));
      var s2 := OpenGroup(s1, |s.nodes|, head, Doc(Dummy(head).func));
      AddParserSpec(s2, s2.structure[head], Dummy(head), Some(Join(tail)))
  }

  /** One turn of the registration loop of `cmdline`: flat when the level setting is falsy. */
  function Step(s: State, g: GroupId, sc: SubCmd, name: string, levels: int): (r: State)
    requires WellFormed(s) && g < |s.groups|
    ensures WellFormed(r)
    ensures |r.nodes| > |s.nodes| && |r.groups| >= |s.groups|
  {
    if levels == 0 then AddParserSpec(s, g, sc, None) else ParseSpec(s, g, sc, name)
  }

  /** The registration loop over `names`, in the order given, into group `g`. */
  function Register(s: State, g: GroupId, subcmds: map<string, SubCmd>, names: seq<string>, levels: int): (r: State)
    requires WellFormed(s) && g < |s.groups|
    requires forall n :: n in names ==> n in subcmds
    ensures WellFormed(r)
    ensures |r.groups| >= |s.groups|
    decreases |names|
  {
    if names == [] then s
    else Register(Step(s, g, subcmds[names[0]], names[0], levels), g, subcmds, names[1..], levels)
  }

  /** The `-v/--version` option of the top-level parser. */
  function VersionOption(version: string): OptionDecl
  {
    OptionDecl(["-v", "--version"], map["action" := "version", "version" := "%(prog)s " + version])
  }

  /**
    The top-level parser of `cmdline` and its group of subcommands: the
    parser's node is `|s.nodes|`, its group `|s.groups|`; no `func` default.
   */
  function Start(s: State, description: string, version: string): (r: State)
    requires WellFormed(s)
    ensures WellFormed(r)
    ensures |r.groups| == |s.groups| + 1 && r.groups[..|s.groups|] == s.groups
    ensures r.groups[|s.groups|] == Group("subcommands", "valid subcommands", map[], [])
    ensures |r.nodes| == |s.nodes| + 1 && r.nodes[..|s.nodes|] == s.nodes
    ensures r.nodes[|s.nodes|].help == description && r.nodes[|s.nodes|].handler == None
    ensures r.nodes[|s.nodes|].options == [VersionOption(version)]
    ensures r.nodes[|s.nodes|].subgroup == Some(|s.groups|)
    ensures r.structure == s.structure
  {
    s.(nodes := s.nodes + [Parser(description, [VersionOption(version)], None, Some(|s.groups|))],
       groups := s.groups + [Group("subcommands", "valid subcommands", map[], [])])
  }

  /** What a parsed command line leads to. */
  datatype Dispatch =
    | Call(handler: Handler)           // `options.func(self, options)`
    | InvalidChoice(word: string)      // argparse rejects a word that names no child
    | Unrecognized(extra: seq<string>) // argparse rejects words left after a parser without children
    | NoHandler                        // no parser on the path set `func`

  /** Calling the `func` default, or failing for want of one. */
  function Outcome(h: Option<Handler>): Dispatch
  {
    if h.Some? then Call(h.value) else NoHandler
  }

  /**
    Dispatching the command words `words` from group `g`, with `current` the
    `func` default in force so far: each word selects a child; the deepest
    selected parser that sets `func` decides the handler. A handler that is
    called is the one in force on entry or one that some parser records,
    and once a `func` default is in force the outcome is never `NoHandler`.
   */
  function Walk(s: State, g: GroupId, words: seq<string>, current: Option<Handler>): (r: Dispatch)
    requires WellFormed(s) && g < |s.groups|
    ensures r.Call? ==> current == Some(r.handler) || exists i :: 0 <= i < |s.nodes| && s.nodes[i].handler == Some(r.handler)
    ensures current.Some? ==> r != NoHandler
    decreases |words|
  {
    if words == [] then Outcome(current)
    else if words[0] !in s.groups[g].choices then InvalidChoice(words[0])
    else
      var p := s.nodes[s.groups[g].choices[words[0]]];
      var h := if p.handler.Some? then p.handler else current;
      match p.subgroup
      case None => if |words| == 1 then Outcome(h) else Unrecognized(words[1..])
      case Some(sub) => Walk(s, sub, words[1..], h)
  }

  // ---------------------------------------------------------------------------
  // One call of add_parser and of parse_subparsers

  /**
    `add_parser` adds exactly one child to `g`, named `name` or, when `name`
    is falsy, the entry's name; the child carries the entry's options in
    order, and dispatching its name from `g` calls the entry's handler.
    Every other group, every existing parser and the cache are unchanged.
   */
  lemma AddParserDispatch(s: State, g: GroupId, sc: SubCmd, name: Option<string>, current: Option<Handler>)
    requires WellFormed(s) && g < |s.groups|
    ensures var r := AddParserSpec(s, g, sc, name);
      && r.groups[g].choices == s.groups[g].choices[ChildName(name, sc) := |s.nodes|]
      && r.groups[g].listing == s.groups[g].listing + [ChildName(name, sc)]
      && r.nodes[|s.nodes|].options == sc.options
      && Walk(r, g, [ChildName(name, sc)], current) == Call(sc.func)
      && (forall g' :: 0 <= g' < |s.groups| && g' != g ==> r.groups[g'] == s.groups[g'])
      && r.nodes[..|s.nodes|] == s.nodes
      && r.structure == s.structure
  {
    var r := AddParserSpec(s, g, sc, name);
    assert r.nodes[|s.nodes|] == LeafParser(sc);
  }

  /** The only pre-existing group slot (group, child name) a `parse_subparsers` call writes. */
  function Target(s: State, g: GroupId, sc: SubCmd, name: string): (GroupId, string)
  {
    if Tail(name) == [] then (g, sc.name)
    else if Head(name) in s.structure then (s.structure[Head(name)], ChildName(Some(Join(Tail(name))), sc))
    else (g, Head(name))
  }

  /**
    What a `parse_subparsers` call leaves alone: every existing parser, every
    existing group except for the one slot it writes, and every cached group;
    the cache gains at most the name's head, bound to a new group.
   */
  lemma ParseFrame(s: State, g: GroupId, sc: SubCmd, name: string)
    requires WellFormed(s) && g < |s.groups|
    ensures var r := ParseSpec(s, g, sc, name);
      var t := Target(s, g, sc, name);
      && t.0 < |s.groups|
      && r.nodes[..|s.nodes|] == s.nodes
      && (forall g' :: 0 <= g' < |s.groups| && g' != t.0 ==> r.groups[g'].choices == s.groups[g'].choices)
      && t.1 in r.groups[t.0].choices
      && r.groups[t.0].choices == s.groups[t.0].choices[t.1 := r.groups[t.0].choices[t.1]]
      && r.structure.Keys == s.structure.Keys + {Head(name)}
      && (forall k :: k in s.structure ==> r.structure[k] == s.structure[k])
      && (forall k :: k in r.structure && k !in s.structure ==> r.structure[k] >= |s.groups|)
  {
    var head, tail := Head(name), Tail(name);
    var n := |s.nodes|;
    if tail == [] {
      var s1 := AddParserSpec(s, g, sc, None);
      AddParserDispatch(s, g, sc, None, None);
      if head !in s1.structure {
        assert ParseSpec(s, g, sc, name) == OpenGroup(s1, n, head, Doc(sc.func));
      }
    } else if head in s.structure {
      AddParserDispatch(s, s.structure[head], sc, Some(Join(tail)), None);
    } else {
      var s1 := AddParserSpec(s, g, Dummy(head), Some(head));
      AddParserDispatch(s, g, Dummy(head), Some(head), None);
      var s2 := OpenGroup(s1, n, head, Doc(Dummy(head).func));
      var r := AddParserSpec(s2, s2.structure[head], Dummy(head), Some(Join(tail)));
      assert r == ParseSpec(s, g, sc, name);
      assert r.nodes[..n] == s2.nodes[..n] == s1.nodes[..n];
    }
  }

  /**
    A bare name becomes a child of `g` that dispatches to its own handler.
    Its head (the name itself) is cached afterwards; it gets a group of its
    own exactly when none was cached for it before (a stale cache leaves the
    new parser without children).
   */
  lemma ParseBare(s: State, g: GroupId, sc: SubCmd, name: string, current: Option<Handler>)
    requires WellFormed(s) && g < |s.groups|
    requires Sep !in name && sc.name == name
    ensures var r := ParseSpec(s, g, sc, name);
      && name in r.groups[g].choices
      && r.groups[g].choices[name] == |s.nodes|
      && Walk(r, g, [name], current) == Call(sc.func)
      && name in r.structure
      && r.nodes[|s.nodes|].handler == Some(sc.func)
      && (r.nodes[|s.nodes|].subgroup.Some? <==> name !in s.structure)
      && (name !in s.structure ==> r.nodes[|s.nodes|].subgroup == Some(|s.groups|) && r.structure[name] == |s.groups|)
  {
    HeadTail(name);
    var s1 := AddParserSpec(s, g, sc, None);
    AddParserDispatch(s, g, sc, None, current);
    var r := ParseSpec(s, g, sc, name);
    if name !in s.structure {
      assert r == OpenGroup(s1, |s.nodes|, name, Doc(sc.func));
      var sub := |s.groups|;
      assert r.nodes[|s.nodes|].subgroup == Some(sub);
      assert Walk(r, g, [name], current) == Walk(r, sub, [], Some(sc.func));
    }
  }

  /**
    An underscored name whose head is cached: the joined remainder (the
    entry's own name if the remainder is empty) becomes one child of the
    cached group and dispatches to the entry's handler; no parser is added
    anywhere else and the cache is unchanged.
   */
  lemma ParseCachedHead(s: State, g: GroupId, sc: SubCmd, name: string, current: Option<Handler>)
    requires WellFormed(s) && g < |s.groups|
    requires Tail(name) != [] && Head(name) in s.structure
    ensures var r := ParseSpec(s, g, sc, name);
      var cached := s.structure[Head(name)];
      var leaf := ChildName(Some(Join(Tail(name))), sc);
      && r.groups[cached].choices == s.groups[cached].choices[leaf := |s.nodes|]
      && Walk(r, cached, [leaf], current) == Call(sc.func)
      && r.nodes[|s.nodes|] == LeafParser(sc)
      && |r.nodes| == |s.nodes| + 1
      && |r.groups| == |s.groups|
      && r.structure == s.structure
  {
    AddParserDispatch(s, s.structure[Head(name)], sc, Some(Join(Tail(name))), current);
  }

  /**
    An underscored name whose head is not cached: exactly one child, the
    synthesized head, is added to `g`, with help `"<head> commands"`, no
    options and the help stub as handler; its new group is cached under the
    head and receives the remainder as its one child. That child carries the
    stub too, with no options: dispatching the head, or the head and the
    remainder, reaches the stub, and the entry's own handler is attached to
    no parser.
   */
  lemma ParseNewHead(s: State, g: GroupId, sc: SubCmd, name: string, current: Option<Handler>)
    requires WellFormed(s) && g < |s.groups|
    requires Tail(name) != [] && Head(name) !in s.structure
    ensures var r := ParseSpec(s, g, sc, name);
      var head := Head(name);
      var leaf := ChildName(Some(Join(Tail(name))), Dummy(head));
      var n := |s.nodes|;
      && r.groups[g].choices == s.groups[g].choices[head := n]
      && r.structure == s.structure[head := |s.groups|]
      && |r.nodes| == n + 2
      && r.nodes[n] == Parser(head + " commands", [], Some(HelpStub(head)), Some(|s.groups|))
      && r.groups[|s.groups|].choices == map[leaf := n + 1]
      && r.nodes[n + 1] == Parser(head + " commands", [], Some(HelpStub(head)), None)
      && Walk(r, g, [head], current) == Call(HelpStub(head))
      && Walk(r, g, [head, leaf], current) == Call(HelpStub(head))
      && (sc.func.Command? ==> forall i :: 0 <= i < |r.nodes| && r.nodes[i].handler == Some(sc.func) ==> i < n)
  {
    var head := Head(name);
    var n := |s.nodes|;
    var s1 := AddParserSpec(s, g, Dummy(head), Some(head));
    AddParserDispatch(s, g, Dummy(head), Some(head), current);
    var s2 := OpenGroup(s1, n, head, Doc(Dummy(head).func));
    var leaf := ChildName(Some(Join(Tail(name))), Dummy(head));
    var r := AddParserSpec(s2, s2.structure[head], Dummy(head), Some(Join(Tail(name))));
    assert r == ParseSpec(s, g, sc, name);
    assert r.nodes[n] == s2.nodes[n];
    assert r.nodes[n + 1] == LeafParser(Dummy(head));
    assert r.groups[|s.groups|].choices == map[leaf := n + 1];
    assert Walk(r, g, [head], current) == Walk(r, |s.groups|, [], Some(HelpStub(head)));
    assert Walk(r, g, [head, leaf], current) == Walk(r, |s.groups|, [leaf], Some(HelpStub(head)));
  }
}
