/**
 The loader (bootstrap/shell_templates.py): depth-first expansion with a memo
 of finished files and a stack of files being expanded.
 */
module ShellTemplateLoader {
  import opened Wrappers
  import opened ShellIncludes

  /** `Fallback` hands the entry to Jinja's own loader unflattened. */
  datatype Source = Flattened(text: string) | Fallback | Raised(error: Error)

  ghost function AsSet(stack: seq<Name>): set<Name> {
    set n | n in stack
  }

  /** Every file on the stack reaches `name`. */
  ghost predicate Above(files: Files, stack: seq<Name>, name: Name) {
    forall n :: n in stack ==> Reach(files, n, name)
  }

  /** A finished file is not below itself, so a stack above it cannot be below it. */
  lemma FinishedAvoidsStack(files: Files, entry: Name, name: Name, stack: seq<Name>)
    requires Plain(files, entry, name, {}).Ok? && Above(files, stack, name) && name !in stack
    ensures Plain(files, entry, name, AsSet(stack)) == Plain(files, entry, name, {})
  {
    forall x | x in AsSet(stack)
      ensures !Reach(files, name, x)
    {
      if Reach(files, name, x) {
        ReachSteps(files, name, x);
        var c :| Edge(files, name, c) && Reach(files, c, x);
        ReachTransitive(files, c, x, name);
        OkIsNotOnCycle(files, entry, name, {});
        assert false;
      }
    }
    StackIrrelevant(files, entry, name, {}, AsSet(stack));
  }

  lemma ForgetStack(files: Files, entry: Name, name: Name, stack: set<Name>)
    requires Plain(files, entry, name, stack).Ok?
    ensures Plain(files, entry, name, {}) == Plain(files, entry, name, stack)
  {
    StackIrrelevant(files, entry, name, stack, {});
  }

  /** The result of expanding the parts from `i` on, given the text of those before. */
  lemma PartsSplit(files: Files, entry: Name, parts: seq<Part>, tail: string, stack: set<Name>, i: nat)
    requires i < |parts|
    ensures PlainParts(files, entry, parts[i..], tail, stack) ==
      var first := Plain(files, entry, parts[i].target, stack);
      if first.Err? then first
      else
        var rest := PlainParts(files, entry, parts[i + 1..], tail, stack);
        if rest.Err? then rest else Ok(parts[i].text + first.value + rest.value)
  {
    assert parts[i..][1..] == parts[i + 1..] && parts[i..][0] == parts[i];
  }

  ghost predicate MemoOk(files: Files, entry: Name, sources: map<Name, string>) {
    forall n :: n in sources ==> Plain(files, entry, n, {}) == Ok(sources[n])
  }

  /** What a finished file includes, directly or not, is finished too. */
  ghost predicate Closed(files: Files, sources: map<Name, string>) {
    forall n, x :: n in sources && Reach(files, n, x) ==> x in sources
  }

  /** Files reachable through one of the first `i` parts. */
  ghost predicate ReachedBy(files: Files, parts: seq<Part>, i: nat, n: Name)
    requires i <= |parts|
  {
    exists j :: 0 <= j < i && Reach(files, parts[j].target, n)
  }

  lemma ReachByParts(files: Files, name: Name, n: Name)
    requires name in files && files[name].Fragment?
    ensures Reach(files, name, n) <==> n == name || ReachedBy(files, files[name].parts, |files[name].parts|, n)
  {
    ReachSteps(files, name, n);
    var parts := files[name].parts;
    if c :| Edge(files, name, c) && Reach(files, c, n) {
      var j :| 0 <= j < |parts| && parts[j].target == c;
      assert Reach(files, parts[j].target, n);
    }
    if j :| 0 <= j < |parts| && Reach(files, parts[j].target, n) {
      assert Edge(files, name, parts[j].target);
    }
  }

  class Loader {
    const files: Files
    const entry: Name
    /** The memo, and the files whose freshness check was recorded, in order. */
    var sources: map<Name, string>
    var checks: seq<Name>
    var flattenedEntry: bool

    constructor (files: Files, entry: Name)
      ensures this.files == files && this.entry == entry
    {
      this.files, this.entry := files, entry;
      sources, checks, flattenedEntry := map[], [], false;
    }

    ghost predicate Valid()
      reads this
    {
      MemoOk(files, entry, sources) && Closed(files, sources)
    }

    /** Each recorded check is of a finished file or of one still on the stack, and recorded once. */
    ghost predicate ChecksMatch(stack: seq<Name>)
      reads this
    {
      && (forall n :: n in checks <==> n in sources || n in stack)
      && (forall i, j :: 0 <= i < j < |checks| ==> checks[i] != checks[j])
    }

    method Expand(name: Name, stack: seq<Name>) returns (result: Expansion)
      requires Valid() && ChecksMatch(stack) && Above(files, stack, name)
      requires forall n :: n in stack ==> n !in sources
      modifies this`sources, this`checks
      ensures result == Plain(files, entry, name, AsSet(stack))
      ensures Valid()
      ensures result.Ok? ==> ChecksMatch(stack)
      ensures result.Ok? ==> forall n :: n in sources <==> n in old(sources) || Reach(files, name, n)
      ensures result.Ok? ==> forall n :: n in stack ==> n !in sources
      decreases files.Keys - AsSet(stack), 0
    {
      if name in stack {
        return Err(Cyclic(name));
      }
      if name in sources {
        FinishedAvoidsStack(files, entry, name, stack);
        return Ok(sources[name]);
      }
      if name !in files {
        return Err(NotFound(name));
      }
      checks := checks + [name];
      if files[name].Scoped? {
        return Err(NotFlat(name));
      }
      var tail := if name != entry then DropFinalNewline(files[name].tail) else files[name].tail;
      assert AsSet(stack + [name]) == AsSet(stack) + {name};
      assert files.Keys - AsSet(stack + [name]) < files.Keys - AsSet(stack);
      ReachSelf(files, name);
      result := ExpandParts(name, stack + [name], tail);
      if result.Ok? {
        ForgetStack(files, entry, name, AsSet(stack));
        forall n
          ensures Reach(files, name, n) <==> n == name || ReachedBy(files, files[name].parts, |files[name].parts|, n)
        {
          ReachByParts(files, name, n);
        }
        sources := sources[name := result.value];
      }
    }

    /** Substitutes every include tag of `name`, in order. */
    method ExpandParts(name: Name, stack: seq<Name>, tail: string) returns (result: Expansion)
      requires name in files && files[name].Fragment?
      requires Valid() && ChecksMatch(stack) && Above(files, stack, name)
      requires forall n :: n in stack ==> n !in sources
      modifies this`sources, this`checks
      ensures result == PlainParts(files, entry, files[name].parts, tail, AsSet(stack))
      ensures Valid()
      ensures result.Ok? ==> ChecksMatch(stack)
      ensures result.Ok? ==> forall n :: n in sources <==>
        n in old(sources) || ReachedBy(files, files[name].parts, |files[name].parts|, n)
      ensures result.Ok? ==> forall n :: n in stack ==> n !in sources
      decreases files.Keys - AsSet(stack), 1
    {
      var parts := files[name].parts;
      var assembled := "";
      assert parts[0..] == parts;
      AfterNothing(PlainParts(files, entry, parts, tail, AsSet(stack)));
      for i := 0 to |parts|
        invariant Valid() && ChecksMatch(stack)
        invariant forall n :: n in stack ==> n !in sources
        invariant forall n :: n in sources <==> n in old(sources) || ReachedBy(files, parts, i, n)
        invariant PlainParts(files, entry, parts, tail, AsSet(stack))
          == After(assembled, PlainParts(files, entry, parts[i..], tail, AsSet(stack)))
      {
        PartsSplit(files, entry, parts, tail, AsSet(stack), i);
        AboveTarget(files, stack, name, i);
        var part := Expand(parts[i].target, stack);
        if part.Err? {
          return part;
        }
        forall n
          ensures ReachedBy(files, parts, i + 1, n) <==>
            ReachedBy(files, parts, i, n) || Reach(files, parts[i].target, n)
        {
        }
        ghost var rest := PlainParts(files, entry, parts[i + 1..], tail, AsSet(stack));
        if rest.Ok? {
          AfterMore(assembled, parts[i].text, part.value, rest.value);
        }
        assembled := assembled + parts[i].text + part.value;
      }
      assert parts[|parts|..] == [];
      result := Ok(assembled + tail);
    }

    /**
     The flattened Shell, exactly when every reachable file can be flattened:
     the text of its include tree, with one freshness check for each reachable
     file. The entry falls back to Jinja only for a file that cannot be
     flattened; a missing file and a cycle are raised.
     */
    method GetSource() returns (source: Source)
      modifies this
      ensures source == SourceOf(Plain(files, entry, entry, {}))
      ensures source.Flattened? ==> exists tree ::
        IsTree(files, entry, tree) && tree.name == entry && source.text == Concat(Leaves(tree))
      ensures source.Fallback? ==> exists x :: Reach(files, entry, x) && x in files && files[x].Scoped?
      ensures source.Raised? ==> source.error.Cyclic? || source.error.NotFound?
      ensures source.Raised? && source.error.Cyclic? ==>
        Reach(files, entry, source.error.name) && OnCycle(files, source.error.name)
      ensures source.Raised? && source.error.NotFound? ==>
        Reach(files, entry, source.error.name) && source.error.name !in files
      ensures flattenedEntry <==> source.Flattened?
      ensures source.Flattened? <==> Flattenable(files, entry)
      ensures source.Flattened? ==> forall n :: n in checks <==> Reach(files, entry, n)
      ensures source.Flattened? ==> forall i, j :: 0 <= i < j < |checks| ==> checks[i] != checks[j]
    {
      flattenedEntry := false;
      sources, checks := map[], [];
      FlattensExactlyWhenFlattenable(files, entry);
      assert AsSet([]) == {};
      var expanded := Expand(entry, []);
      match expanded
      case Ok(text) =>
        flattenedEntry := true;
        source := Flattened(text);
        ghost var tree := PlainIsTree(files, entry, entry, {});
      case Err(e) =>
        FailureIsJustified(files, entry, entry, {});
        source := if e.NotFlat? then Fallback else Raised(e);
    }
  }

  function SourceOf(expansion: Expansion): Source {
    match expansion
    case Ok(text) => Flattened(text)
    case Err(NotFlat(_)) => Fallback
    case Err(e) => Raised(e)
  }

  /** `rest` with `prefix` put in front of its text. */
  function After(prefix: string, rest: Expansion): Expansion {
    if rest.Err? then rest else Ok(prefix + rest.value)
  }

  lemma AfterNothing(rest: Expansion)
    ensures After("", rest) == rest
  {
    if rest.Ok? {
      assert "" + rest.value == rest.value;
    }
  }

  lemma AfterMore(prefix: string, text: string, part: string, rest: string)
    ensures After(prefix, Ok(text + part + rest)) == After(prefix + text + part, Ok(rest))
  {
    assert prefix + (text + part + rest) == prefix + text + part + rest;
  }

  lemma AboveTarget(files: Files, stack: seq<Name>, name: Name, i: nat)
    requires name in files && files[name].Fragment? && i < |files[name].parts| && Above(files, stack, name)
    ensures Above(files, stack, files[name].parts[i].target)
  {
    var c := files[name].parts[i].target;
    assert Edge(files, name, c);
    ReachSelf(files, c);
    ReachFirst(files, name, c, c);
    forall n | n in stack
      ensures Reach(files, n, c)
    {
      ReachTransitive(files, n, name, c);
    }
  }
}
