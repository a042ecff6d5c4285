/**
  Command discovery (the metaclass of a command class): every class-body
  binding whose name starts with the prefix becomes a command entry keyed by
  the rest of the name.
 */
module Discovery {
  import opened Options

  /** The fixed command prefix; no other prefix is read. */
  const Prefix: string := "do_"

  /** What `set_defaults(func=...)` records: a discovered handler, or the help stub synthesized for a group head. */
  datatype Handler = Command(func: Func) | HelpStub(head: string)

  /** The `{"name", "func", "options"}` entry of one command. */
  datatype SubCmd = SubCmd(name: string, func: Handler, options: seq<OptionDecl>)

  /** The handler's `__doc__`; the help stub's is `"<head> commands"`. */
  function Doc(h: Handler): string
  {
    match h
    case Command(f) => f.doc
    case HelpStub(head) => head + " commands"
  }

  /** `name.startswith("do_")`. */
  predicate HasPrefix(name: string)
  {
    |name| >= |Prefix| && name[..|Prefix|] == Prefix
  }

  /**
    The command table discovered from `classdict`: its keys are exactly the
    prefixed binding names with the prefix stripped, and each entry carries
    its key as name, the bound function as handler, and the function's
    options (none when it has no `options` attribute).
   */
  ghost predicate Discovered(classdict: map<string, Func>, subcmds: map<string, SubCmd>)
    reads classdict.Values
  {
    && (forall name :: name in classdict && HasPrefix(name) ==> name[|Prefix|..] in subcmds)
    && (forall k :: k in subcmds ==>
          && Prefix + k in classdict
          && subcmds[k] == SubCmd(k, Command(classdict[Prefix + k]), Present(classdict[Prefix + k].options)))
  }

  /** Every entry is named by its own key. */
  ghost predicate NamedByKey(subcmds: map<string, SubCmd>)
  {
    forall k :: k in subcmds ==> subcmds[k].name == k
  }

  lemma StripPrefix(name: string)
    requires HasPrefix(name)
    ensures Prefix + name[|Prefix|..] == name
  {
    assert name == name[..|Prefix|] + name[|Prefix|..];
  }

  /** The metaclass loop filling `_argparse_subcmds`. */
  method Discover(classdict: map<string, Func>) returns (subcmds: map<string, SubCmd>)
    ensures Discovered(classdict, subcmds)
    ensures NamedByKey(subcmds)
  {
    subcmds := map[];
    var remaining := classdict.Keys;
    while remaining != {}
      invariant remaining <= classdict.Keys
      invariant forall name :: name in classdict && name !in remaining && HasPrefix(name) ==> name[|Prefix|..] in subcmds
      invariant forall k :: k in subcmds ==>
          && Prefix + k in classdict && Prefix + k !in remaining
          && subcmds[k] == SubCmd(k, Command(classdict[Prefix + k]), Present(classdict[Prefix + k].options))
      decreases |remaining|
    {
      var name :| name in remaining;
      var func := classdict[name];
      if HasPrefix(name) {
        var stripped := name[|Prefix|..];
        StripPrefix(name);
        var subcmd := SubCmd(stripped, Command(func), []);
        if func.options.Some? {
          subcmd := subcmd.(options := func.options.value);
        }
        subcmds := subcmds[stripped := subcmd];
      }
      remaining := remaining - {name};
    }
  }
}
