/**
 Flattening the Shell template (bootstrap/shell_templates.py). A file is the
 text around its include tags, or a file that cannot be flattened at all.
 */
module ShellIncludes {
  import opened Wrappers

  type Name = string

  /** An include tag with the text in front of it. */
  datatype Part = Part(text: string, target: Name)

  /** `Scoped` files need Jinja's own include handling; `tail` is the text after the last tag. */
  datatype File = Scoped | Fragment(parts: seq<Part>, tail: string)

  type Files = map<Name, File>

  datatype Error = Cyclic(name: Name) | NotFound(name: Name) | NotFlat(name: Name)

  type Expansion = Result<string, Error>

  /** Drops one final newline, as Jinja does for every included file. */
  function DropFinalNewline(s: string): string {
    if |s| >= 2 && s[|s| - 2..] == "\r\n" then s[..|s| - 2]
    else if |s| >= 1 && (s[|s| - 1] == '\n' || s[|s| - 1] == '\r') then s[..|s| - 1]
    else s
  }

  function TailOf(file: File, name: Name, entry: Name): string
    requires file.Fragment?
  {
    if name == entry then file.tail else DropFinalNewline(file.tail)
  }

  // ---- Plain recursive expansion: every include is expanded again ----

  function Plain(files: Files, entry: Name, name: Name, stack: set<Name>): Expansion
    decreases files.Keys - stack, 0
  {
    if name in stack then Err(Cyclic(name))
    else if name !in files then Err(NotFound(name))
    else if files[name].Scoped? then Err(NotFlat(name))
    else
      assert files.Keys - (stack + {name}) < files.Keys - stack;
      PlainParts(files, entry, files[name].parts, TailOf(files[name], name, entry), stack + {name})
  }

  function PlainParts(files: Files, entry: Name, parts: seq<Part>, tail: string, stack: set<Name>): Expansion
    decreases files.Keys - stack, |parts| + 1
  {
    if parts == [] then Ok(tail)
    else
      var first := Plain(files, entry, parts[0].target, stack);
      if first.Err? then first
      else
        var rest := PlainParts(files, entry, parts[1..], tail, stack);
        if rest.Err? then rest else Ok(parts[0].text + first.value + rest.value)
  }

  // ---- The text of a flattened file ----

  /** A file with every include, and every include in those, in place. */
  datatype Tree = Tree(name: Name, branches: seq<Branch>, tail: string)
  datatype Branch = Branch(text: string, tree: Tree)

  predicate EndsWith(s: string, c: char) {
    |s| > 0 && s[|s| - 1] == c
  }

  /** `t` is `s` without its final newline, if it has one. */
  predicate LosesFinalNewline(s: string, t: string) {
    || s == t + "\r\n"
    || (s == t + "\n" && !EndsWith(t, '\r'))
    || s == t + "\r"
    || (s == t && !EndsWith(s, '\n') && !EndsWith(s, '\r'))
  }

  /** The tree has the texts of its file in order, and below each of them the tree of the include that follows. */
  ghost predicate IsTree(files: Files, entry: Name, tree: Tree)
    decreases tree
  {
    && tree.name in files && files[tree.name].Fragment?
    && var f := files[tree.name];
       && |tree.branches| == |f.parts|
       && (forall i :: 0 <= i < |f.parts| ==>
             && tree.branches[i].text == f.parts[i].text && tree.branches[i].tree.name == f.parts[i].target
             && IsTree(files, entry, tree.branches[i].tree))
       && (if tree.name == entry then tree.tail == f.tail else LosesFinalNewline(f.tail, tree.tail))
  }

  /** The pieces of text from left to right. */
  function Leaves(tree: Tree): seq<string>
    decreases tree
  {
    LeavesOf(tree.branches) + [tree.tail]
  }

  function LeavesOf(branches: seq<Branch>): seq<string>
    decreases branches
  {
    if branches == [] then [] else [branches[0].text] + Leaves(branches[0].tree) + LeavesOf(branches[1..])
  }

  function Concat(pieces: seq<string>): string {
    if pieces == [] then "" else pieces[0] + Concat(pieces[1..])
  }

  lemma {:induction false} ConcatSplit(a: seq<string>, b: seq<string>)
    ensures Concat(a + b) == Concat(a) + Concat(b)
    decreases |a|
  {
    if a == [] {
      assert a + b == b;
    } else {
      ConcatSplit(a[1..], b);
      assert (a + b)[1..] == a[1..] + b;
    }
  }

  /** A successful expansion is the text of the include tree, from left to right. */
  lemma {:induction false} PlainIsTree(files: Files, entry: Name, name: Name, stack: set<Name>) returns (tree: Tree)
    requires Plain(files, entry, name, stack).Ok?
    ensures IsTree(files, entry, tree) && tree.name == name
    ensures Plain(files, entry, name, stack).value == Concat(Leaves(tree))
    decreases files.Keys - stack, 0
  {
    assert files.Keys - (stack + {name}) < files.Keys - stack;
    hide DropFinalNewline, LosesFinalNewline, Concat;
    var f := files[name];
    var tail := TailOf(f, name, entry);
    DropIsLoss(f.tail);
    var branches := PartsAreBranches(files, entry, f.parts, tail, stack + {name});
    tree := Tree(name, branches, tail);
    ConcatSplit(LeavesOf(branches), [tail]);
    ConcatOne(tail);
  }

  lemma ConcatOne(piece: string)
    ensures Concat([piece]) == piece
  {
    assert Concat([piece][1..]) == "";
  }

  lemma {:induction false} PartsAreBranches(files: Files, entry: Name, parts: seq<Part>, tail: string, stack: set<Name>)
    returns (branches: seq<Branch>)
    requires PlainParts(files, entry, parts, tail, stack).Ok?
    ensures |branches| == |parts|
    ensures forall i :: 0 <= i < |parts| ==>
      && branches[i].text == parts[i].text && branches[i].tree.name == parts[i].target
      && IsTree(files, entry, branches[i].tree)
    ensures PlainParts(files, entry, parts, tail, stack).value == Concat(LeavesOf(branches)) + tail
    decreases files.Keys - stack, |parts| + 1
  {
    hide IsTree;
    if parts == [] {
      branches := [];
    } else {
      var tree := PlainIsTree(files, entry, parts[0].target, stack);
      var rest := PartsAreBranches(files, entry, parts[1..], tail, stack);
      branches := [Branch(parts[0].text, tree)] + rest;
      assert branches[1..] == rest;
      ConcatSplit([parts[0].text] + Leaves(tree), LeavesOf(rest));
      ConcatSplit([parts[0].text], Leaves(tree));
      ConcatOne(parts[0].text);
      JoinThree(parts[0].text, Concat(Leaves(tree)), Concat(LeavesOf(rest)), tail);
    }
  }

  lemma JoinThree(a: string, b: string, c: string, d: string)
    ensures a + b + c + d == a + b + (c + d)
  {}

  /** A file has at most one include tree. */
  lemma {:induction false} TreeIsUnique(files: Files, entry: Name, a: Tree, b: Tree)
    requires IsTree(files, entry, a) && IsTree(files, entry, b) && a.name == b.name
    ensures a == b
    decreases a
  {
    forall i | 0 <= i < |a.branches|
      ensures a.branches[i] == b.branches[i]
    {
      TreeIsUnique(files, entry, a.branches[i].tree, b.branches[i].tree);
    }
    if a.name != entry {
      LossIsUnique(files[a.name].tail, a.tail, b.tail);
    }
  }

  lemma LossIsUnique(s: string, t: string, u: string)
    requires LosesFinalNewline(s, t) && LosesFinalNewline(s, u)
    ensures t == u
  {
    LossIsDrop(s, t);
    LossIsDrop(s, u);
  }

  lemma LossIsDrop(s: string, t: string)
    requires LosesFinalNewline(s, t)
    ensures t == DropFinalNewline(s)
  {
    if s == t + "\r\n" {
      assert s[|s| - 2..] == "\r\n" && s[..|s| - 2] == t;
    } else if s == t + "\n" || s == t + "\r" {
      assert s[..|s| - 1] == t;
      assert |t| > 0 ==> s[|s| - 2] == t[|t| - 1];
      assert s[|s| - 1] == '\n' || s[|s| - 1] == '\r';
    }
  }

  lemma DropIsLoss(s: string)
    ensures LosesFinalNewline(s, DropFinalNewline(s))
  {
    var t := DropFinalNewline(s);
    assert |s| >= 2 ==> s[|s| - 2..] == [s[|s| - 2], s[|s| - 1]];
    if |s| >= 2 && s[|s| - 2..] == "\r\n" {
      assert s == t + "\r\n";
    } else if EndsWith(s, '\n') {
      assert s == t + "\n";
    } else if EndsWith(s, '\r') {
      assert s == t + "\r";
    }
  }

  // ---- The include graph ----

  predicate Edge(files: Files, a: Name, b: Name) {
    a in files && files[a].Fragment? && exists i :: 0 <= i < |files[a].parts| && files[a].parts[i].target == b
  }

  ghost predicate ReachIn(files: Files, a: Name, b: Name, steps: nat)
    decreases steps
  {
    if steps == 0 then a == b else exists c :: Edge(files, a, c) && ReachIn(files, c, b, steps - 1)
  }

  ghost predicate Reach(files: Files, a: Name, b: Name) {
    exists steps: nat :: ReachIn(files, a, b, steps)
  }

  ghost predicate OnCycle(files: Files, a: Name) {
    exists c :: Edge(files, a, c) && Reach(files, c, a)
  }

  lemma ReachSelf(files: Files, a: Name)
    ensures Reach(files, a, a)
  {
    assert ReachIn(files, a, a, 0);
  }

  lemma ReachFirst(files: Files, a: Name, c: Name, b: Name)
    requires Edge(files, a, c) && Reach(files, c, b)
    ensures Reach(files, a, b)
  {
    var steps: nat :| ReachIn(files, c, b, steps);
    assert ReachIn(files, a, b, steps + 1);
  }

  lemma {:induction false} ReachInTransitive(files: Files, a: Name, b: Name, c: Name, steps: nat)
    requires ReachIn(files, a, b, steps) && Reach(files, b, c)
    ensures Reach(files, a, c)
    decreases steps
  {
    if steps > 0 {
      var d :| Edge(files, a, d) && ReachIn(files, d, b, steps - 1);
      ReachInTransitive(files, d, b, c, steps - 1);
      ReachFirst(files, a, d, c);
    }
  }

  lemma ReachTransitive(files: Files, a: Name, b: Name, c: Name)
    requires Reach(files, a, b) && Reach(files, b, c)
    ensures Reach(files, a, c)
  {
    var steps: nat :| ReachIn(files, a, b, steps);
    ReachInTransitive(files, a, b, c, steps);
  }

  /** What is reachable from a file is itself and what is reachable from its includes. */
  lemma ReachSteps(files: Files, a: Name, b: Name)
    ensures Reach(files, a, b) <==> a == b || exists c :: Edge(files, a, c) && Reach(files, c, b)
  {
    ReachSelf(files, a);
    if Reach(files, a, b) && a != b {
      var steps: nat :| ReachIn(files, a, b, steps);
      var c :| Edge(files, a, c) && ReachIn(files, c, b, steps - 1);
      assert Reach(files, c, b);
    }
    if c :| Edge(files, a, c) && Reach(files, c, b) {
      ReachFirst(files, a, c, b);
    }
  }

  // ---- When plain expansion succeeds ----

  lemma {:induction false} PartsOk(files: Files, entry: Name, parts: seq<Part>, tail: string, stack: set<Name>, i: nat)
    requires PlainParts(files, entry, parts, tail, stack).Ok? && i < |parts|
    ensures Plain(files, entry, parts[i].target, stack).Ok?
    decreases |parts|
  {
    if i > 0 {
      PartsOk(files, entry, parts[1..], tail, stack, i - 1);
      assert parts[1..][i - 1] == parts[i];
    }
  }

  lemma IncludeOk(files: Files, entry: Name, name: Name, stack: set<Name>, c: Name)
    requires Plain(files, entry, name, stack).Ok? && Edge(files, name, c)
    ensures Plain(files, entry, c, stack + {name}).Ok?
  {
    var parts := files[name].parts;
    var i :| 0 <= i < |parts| && parts[i].target == c;
    PartsOk(files, entry, parts, TailOf(files[name], name, entry), stack + {name}, i);
  }

  /** A successful expansion reaches nothing that is on its stack. */
  lemma {:induction false} OkAvoidsStack(files: Files, entry: Name, name: Name, stack: set<Name>, x: Name, steps: nat)
    requires Plain(files, entry, name, stack).Ok? && ReachIn(files, name, x, steps)
    ensures x !in stack
    decreases steps
  {
    if steps > 0 {
      var c :| Edge(files, name, c) && ReachIn(files, c, x, steps - 1);
      IncludeOk(files, entry, name, stack, c);
      OkAvoidsStack(files, entry, c, stack + {name}, x, steps - 1);
    }
  }

  lemma OkIsNotOnCycle(files: Files, entry: Name, name: Name, stack: set<Name>)
    requires Plain(files, entry, name, stack).Ok?
    ensures !OnCycle(files, name)
  {
    if OnCycle(files, name) {
      var c :| Edge(files, name, c) && Reach(files, c, name);
      IncludeOk(files, entry, name, stack, c);
      var steps: nat :| ReachIn(files, c, name, steps);
      OkAvoidsStack(files, entry, c, stack + {name}, name, steps);
      assert false;
    }
  }

  ghost predicate Avoids(files: Files, name: Name, stack: set<Name>) {
    forall x :: x in stack ==> !Reach(files, name, x)
  }

  /** A successful expansion gives the same text under every other stack that it does not reach. */
  lemma {:induction false} StackIrrelevant(files: Files, entry: Name, name: Name, a: set<Name>, b: set<Name>)
    requires Plain(files, entry, name, a).Ok? && Avoids(files, name, b)
    ensures Plain(files, entry, name, b) == Plain(files, entry, name, a)
    decreases files.Keys - a, 0
  {
    ReachSelf(files, name);
    assert files.Keys - (a + {name}) < files.Keys - a;
    forall i | 0 <= i < |files[name].parts|
      ensures Avoids(files, files[name].parts[i].target, b + {name})
    {
      var c := files[name].parts[i].target;
      assert Edge(files, name, c);
      forall x | x in b
        ensures !Reach(files, c, x)
      {
        if Reach(files, c, x) {
          ReachFirst(files, name, c, x);
        }
      }
      OkIsNotOnCycle(files, entry, name, a);
    }
    PartsStackIrrelevant(files, entry, files[name].parts, TailOf(files[name], name, entry), a + {name}, b + {name});
  }

  lemma {:induction false} PartsStackIrrelevant(files: Files, entry: Name, parts: seq<Part>, tail: string,
                                                a: set<Name>, b: set<Name>)
    requires PlainParts(files, entry, parts, tail, a).Ok?
    requires forall i :: 0 <= i < |parts| ==> Avoids(files, parts[i].target, b)
    ensures PlainParts(files, entry, parts, tail, b) == PlainParts(files, entry, parts, tail, a)
    decreases files.Keys - a, |parts| + 1
  {
    if parts != [] {
      StackIrrelevant(files, entry, parts[0].target, a, b);
      forall i | 0 <= i < |parts[1..]|
        ensures Avoids(files, parts[1..][i].target, b)
      {
        assert parts[1..][i] == parts[i + 1];
      }
      PartsStackIrrelevant(files, entry, parts[1..], tail, a, b);
    }
  }

  /** What a failure says: the named file is reachable and really is at fault. */
  ghost predicate Justified(files: Files, name: Name, stack: set<Name>, e: Error) {
    && Reach(files, name, e.name)
    && match e
       case Cyclic(x) => x in stack || OnCycle(files, x)
       case NotFound(x) => x !in files
       case NotFlat(x) => x in files && files[x].Scoped?
  }

  lemma {:induction false} FailureIsJustified(files: Files, entry: Name, name: Name, stack: set<Name>)
    requires Plain(files, entry, name, stack).Err?
    ensures Justified(files, name, stack, Plain(files, entry, name, stack).error)
    decreases files.Keys - stack, 0
  {
    ReachSelf(files, name);
    if name !in stack && name in files && files[name].Fragment? {
      assert files.Keys - (stack + {name}) < files.Keys - stack;
      var parts, tail := files[name].parts, TailOf(files[name], name, entry);
      var i := PartsFailure(files, entry, parts, tail, stack + {name});
      var c := parts[i].target;
      var e := Plain(files, entry, c, stack + {name}).error;
      assert Edge(files, name, c);
      ReachFirst(files, name, c, e.name);
    }
  }

  lemma {:induction false} PartsFailure(files: Files, entry: Name, parts: seq<Part>, tail: string, stack: set<Name>)
    returns (i: nat)
    requires PlainParts(files, entry, parts, tail, stack).Err?
    ensures i < |parts| && Plain(files, entry, parts[i].target, stack) == PlainParts(files, entry, parts, tail, stack)
    ensures Justified(files, parts[i].target, stack, PlainParts(files, entry, parts, tail, stack).error)
    decreases files.Keys - stack, |parts| + 1
  {
    if Plain(files, entry, parts[0].target, stack).Err? {
      FailureIsJustified(files, entry, parts[0].target, stack);
      i := 0;
    } else {
      var j := PartsFailure(files, entry, parts[1..], tail, stack);
      i := j + 1;
    }
  }

  // ---- The two main statements about plain expansion ----

  lemma {:induction false} ReachedIsOk(files: Files, entry: Name, name: Name, x: Name, steps: nat)
    requires Plain(files, entry, name, {}).Ok? && ReachIn(files, name, x, steps)
    ensures Plain(files, entry, x, {}).Ok?
    decreases steps
  {
    if steps > 0 {
      var c :| Edge(files, name, c) && ReachIn(files, c, x, steps - 1);
      IncludeOk(files, entry, name, {}, c);
      StackIrrelevant(files, entry, c, {} + {name}, {});
      ReachedIsOk(files, entry, c, x, steps - 1);
    }
  }

  /** Every reachable file exists, can be flattened, and is not on a cycle. */
  ghost predicate Flattenable(files: Files, name: Name) {
    forall x :: Reach(files, name, x) ==> x in files && files[x].Fragment? && !OnCycle(files, x)
  }

  lemma FlattensExactlyWhenFlattenable(files: Files, entry: Name)
    ensures Plain(files, entry, entry, {}).Ok? <==> Flattenable(files, entry)
  {
    if Plain(files, entry, entry, {}).Ok? {
      forall x | Reach(files, entry, x)
        ensures x in files && files[x].Fragment? && !OnCycle(files, x)
      {
        var steps: nat :| ReachIn(files, entry, x, steps);
        ReachedIsOk(files, entry, entry, x, steps);
        OkIsNotOnCycle(files, entry, x, {});
      }
    } else {
      FailureIsJustified(files, entry, entry, {});
    }
  }

  /** Among files that all exist and can be flattened, the cyclic error appears exactly for a reachable cycle. */
  lemma CyclicErrorExactlyOnCycle(files: Files, entry: Name)
    requires forall x :: Reach(files, entry, x) ==> x in files && files[x].Fragment?
    ensures (exists x :: Reach(files, entry, x) && OnCycle(files, x)) <==>
      (Plain(files, entry, entry, {}).Err? && Plain(files, entry, entry, {}).error.Cyclic?)
  {
    FlattensExactlyWhenFlattenable(files, entry);
    if Plain(files, entry, entry, {}).Err? {
      FailureIsJustified(files, entry, entry, {});
    }
  }
}
