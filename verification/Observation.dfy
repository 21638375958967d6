/**
 Evaluating bounded UI conditions when some observations are unavailable
 (worker_agent/aoa_observation.py), and when a condition is certain to name a
 visible page (foundation/aoa_semantics.py).
 */
module Observation {
  import opened Wrappers

  /** `exists` is the polarity of a page atom: the element is expected to be there or not. */
  datatype Atom =
    | Ui(selector: map<string, string>, present: bool)
    | Visual(reference: string, present: bool)
    | AdbState(state: string)

  datatype Condition = Atomic(atom: Atom) | All(terms: seq<Condition>) | Any(terms: seq<Condition>)

  /** A condition with what each occurrence of an atom returned; None where the observation was unavailable. */
  datatype Term = Leaf(atom: Atom, outcome: Option<bool>) | AllOf(terms: seq<Term>) | AnyOf(terms: seq<Term>)

  function Shape(t: Term): Condition {
    match t
    case Leaf(a, _) => Atomic(a)
    case AllOf(ts) => All(seq(|ts|, i requires 0 <= i < |ts| => Shape(ts[i])))
    case AnyOf(ts) => Any(seq(|ts|, i requires 0 <= i < |ts| => Shape(ts[i])))
  }

  // ---- The evaluation ----

  /** The verdict, or None for ObservationUnavailableError. */
  function Verdict(t: Term): Option<bool> {
    match t
    case Leaf(_, outcome) => outcome
    case AllOf(ts) =>
      if exists i :: 0 <= i < |ts| && Verdict(ts[i]) == Some(false) then Some(false)
      else if exists i :: 0 <= i < |ts| && Verdict(ts[i]) == None then None
      else Some(true)
    case AnyOf(ts) =>
      if exists i :: 0 <= i < |ts| && Verdict(ts[i]) == Some(true) then Some(true)
      else if exists i :: 0 <= i < |ts| && Verdict(ts[i]) == None then None
      else Some(false)
  }

  /** The recursion of the source: every child is evaluated, then the outcomes are combined. */
  method Evaluate(t: Term) returns (verdict: Option<bool>)
    ensures verdict == Verdict(t)
    decreases t
  {
    if t.Leaf? {
      return t.outcome;
    }
    var outcomes: seq<bool> := [];
    var unavailable: nat := 0;
    for i := 0 to |t.terms|
      invariant forall b :: b in outcomes <==> exists j :: 0 <= j < i && Verdict(t.terms[j]) == Some(b)
      invariant unavailable > 0 <==> exists j :: 0 <= j < i && Verdict(t.terms[j]) == None
    {
      var child := Evaluate(t.terms[i]);
      if child.Some? {
        outcomes := outcomes + [child.value];
      } else {
        unavailable := unavailable + 1;
      }
    }
    if t.AnyOf? && true in outcomes {
      return Some(true);
    }
    if t.AllOf? && false in outcomes {
      return Some(false);
    }
    if unavailable > 0 {
      return None;
    }
    verdict := Some(if t.AllOf? then false !in outcomes else true in outcomes);
  }

  // ---- What a verdict means ----

  /** `r` is `t` with every unavailable occurrence decided one way or the other. */
  ghost predicate Resolves(t: Term, r: Term) {
    match t
    case Leaf(a, outcome) => r.Leaf? && r.atom == a && r.outcome.Some? && (outcome.Some? ==> r.outcome == outcome)
    case AllOf(ts) => r.AllOf? && |r.terms| == |ts| && forall i :: 0 <= i < |ts| ==> Resolves(ts[i], r.terms[i])
    case AnyOf(ts) => r.AnyOf? && |r.terms| == |ts| && forall i :: 0 <= i < |ts| ==> Resolves(ts[i], r.terms[i])
  }

  /** Two-valued truth; an undecided leaf counts as false. */
  ghost predicate Truth(r: Term) {
    match r
    case Leaf(_, outcome) => outcome == Some(true)
    case AllOf(ts) => forall i :: 0 <= i < |ts| ==> Truth(ts[i])
    case AnyOf(ts) => exists i :: 0 <= i < |ts| && Truth(ts[i])
  }

  /** All unavailable occurrences decided the same way. */
  function Fill(t: Term, b: bool): Term {
    match t
    case Leaf(a, outcome) => Leaf(a, if outcome.Some? then outcome else Some(b))
    case AllOf(ts) => AllOf(seq(|ts|, i requires 0 <= i < |ts| => Fill(ts[i], b)))
    case AnyOf(ts) => AnyOf(seq(|ts|, i requires 0 <= i < |ts| => Fill(ts[i], b)))
  }

  lemma {:induction false} FillResolves(t: Term, b: bool)
    ensures Resolves(t, Fill(t, b))
  {
    if !t.Leaf? {
      forall i | 0 <= i < |t.terms|
        ensures Resolves(t.terms[i], Fill(t.terms[i], b))
      {
        FillResolves(t.terms[i], b);
      }
    }
  }

  lemma {:induction false} VerdictHoldsForEveryResolution(t: Term, r: Term)
    requires Verdict(t).Some? && Resolves(t, r)
    ensures Truth(r) == Verdict(t).value
  {
    match t
    case Leaf(_, _) =>
    case AllOf(ts) =>
      forall i | 0 <= i < |ts| && Verdict(ts[i]).Some?
        ensures Truth(r.terms[i]) == Verdict(ts[i]).value
      {
        VerdictHoldsForEveryResolution(ts[i], r.terms[i]);
      }
    case AnyOf(ts) =>
      forall i | 0 <= i < |ts| && Verdict(ts[i]).Some?
        ensures Truth(r.terms[i]) == Verdict(ts[i]).value
      {
        VerdictHoldsForEveryResolution(ts[i], r.terms[i]);
      }
  }

  lemma {:induction false} UnavailableLeavesBothOpen(t: Term)
    requires Verdict(t).None?
    ensures Truth(Fill(t, true)) && !Truth(Fill(t, false))
  {
    if !t.Leaf? {
      forall i, b | 0 <= i < |t.terms|
        ensures Verdict(t.terms[i]).None? ==> Truth(Fill(t.terms[i], b)) == b
        ensures Verdict(t.terms[i]).Some? ==> Truth(Fill(t.terms[i], b)) == Verdict(t.terms[i]).value
      {
        if Verdict(t.terms[i]).None? {
          UnavailableLeavesBothOpen(t.terms[i]);
        } else {
          FillResolves(t.terms[i], b);
          VerdictHoldsForEveryResolution(t.terms[i], Fill(t.terms[i], b));
        }
      }
      var i :| 0 <= i < |t.terms| && Verdict(t.terms[i]) == None;
      if t.AllOf? {
        assert Fill(t, false).terms[i] == Fill(t.terms[i], false);
        forall j | 0 <= j < |t.terms|
          ensures Truth(Fill(t, true).terms[j])
        {
          assert Verdict(t.terms[j]) != Some(false);
        }
      } else {
        assert Fill(t, true).terms[i] == Fill(t.terms[i], true);
        forall j | 0 <= j < |t.terms|
          ensures !Truth(Fill(t, false).terms[j])
        {
          assert Verdict(t.terms[j]) != Some(true);
        }
      }
    }
  }

  /** A verdict is given exactly when all ways to decide the unavailable occurrences agree on it. */
  lemma VerdictExactlyWhenDecided(t: Term, v: bool)
    ensures Verdict(t) == Some(v) <==> forall r :: Resolves(t, r) ==> Truth(r) == v
  {
    if Verdict(t) == Some(v) {
      forall r | Resolves(t, r)
        ensures Truth(r) == v
      {
        VerdictHoldsForEveryResolution(t, r);
      }
    } else {
      FillResolves(t, true);
      FillResolves(t, false);
      if Verdict(t).None? {
        UnavailableLeavesBothOpen(t);
        assert Resolves(t, Fill(t, !v)) && Truth(Fill(t, !v)) != v;
      } else {
        VerdictHoldsForEveryResolution(t, Fill(t, true));
        assert Resolves(t, Fill(t, true)) && Truth(Fill(t, true)) != v;
      }
    }
  }

  // ---- Page conditions ----

  predicate IsPageAtom(a: Atom) {
    !a.AdbState? && a.present
  }

  /** `has_page_condition`. */
  predicate HasPage(c: Condition) {
    match c
    case Atomic(a) => IsPageAtom(a)
    case All(terms) => exists i :: 0 <= i < |terms| && HasPage(terms[i])
    case Any(terms) => terms != [] && forall i :: 0 <= i < |terms| ==> HasPage(terms[i])
  }

  /** Some `ui` or `visual` element that is expected to be there was observed to be there. */
  ghost predicate PageHeld(t: Term) {
    match t
    case Leaf(Ui(_, present), outcome) => present && outcome == Some(true)
    case Leaf(Visual(_, present), outcome) => present && outcome == Some(true)
    case Leaf(AdbState(_), _) => false
    case AllOf(ts) => exists i :: 0 <= i < |ts| && PageHeld(ts[i])
    case AnyOf(ts) => exists i :: 0 <= i < |ts| && PageHeld(ts[i])
  }

  lemma ThreeVerdicts(v: Option<bool>)
    ensures v == None || v == Some(true) || v == Some(false)
  {
    if v.Some? {
      assert v == Some(if v.value then true else false);
    }
  }

  lemma {:induction false} TrueVerdictHoldsPage(t: Term)
    requires HasPage(Shape(t)) && Verdict(t) == Some(true)
    ensures PageHeld(t)
  {
    match t
    case Leaf(_, _) =>
    case AllOf(ts) =>
      var i :| 0 <= i < |ts| && HasPage(Shape(t).terms[i]);
      assert Shape(t).terms[i] == Shape(ts[i]);
      ThreeVerdicts(Verdict(ts[i]));
      TrueVerdictHoldsPage(ts[i]);
    case AnyOf(ts) =>
      var i :| 0 <= i < |ts| && Verdict(ts[i]) == Some(true);
      assert Shape(t).terms[i] == Shape(ts[i]);
      TrueVerdictHoldsPage(ts[i]);
  }

  /** No list of alternatives is empty, as validation demands. */
  predicate Bounded(c: Condition) {
    match c
    case Atomic(_) => true
    case All(terms) => terms != [] && forall i :: 0 <= i < |terms| ==> Bounded(terms[i])
    case Any(terms) => terms != [] && forall i :: 0 <= i < |terms| ==> Bounded(terms[i])
  }

  /** The observation in which no expected page element is there and everything else holds. */
  function Blind(c: Condition): Term {
    match c
    case Atomic(Ui(selector, present)) => Leaf(Ui(selector, present), Some(!present))
    case Atomic(Visual(reference, present)) => Leaf(Visual(reference, present), Some(!present))
    case Atomic(AdbState(state)) => Leaf(AdbState(state), Some(true))
    case All(terms) => AllOf(seq(|terms|, i requires 0 <= i < |terms| => Blind(terms[i])))
    case Any(terms) => AnyOf(seq(|terms|, i requires 0 <= i < |terms| => Blind(terms[i])))
  }

  lemma {:induction false} BlindVerdict(c: Condition)
    requires Bounded(c)
    ensures Shape(Blind(c)) == c && !PageHeld(Blind(c)) && Verdict(Blind(c)) == Some(!HasPage(c))
  {
    if !c.Atomic? {
      var ts := Blind(c).terms;
      forall i | 0 <= i < |c.terms|
        ensures ts[i] == Blind(c.terms[i])
        ensures Shape(ts[i]) == c.terms[i] && !PageHeld(ts[i]) && Verdict(ts[i]) == Some(!HasPage(c.terms[i]))
      {
        BlindVerdict(c.terms[i]);
      }
      if c.All? {
        assert Shape(Blind(c)).terms == c.terms;
      } else {
        assert Shape(Blind(c)).terms == c.terms;
        if HasPage(c) {
          assert HasPage(c.terms[0]);
        }
      }
    }
  }

  /** The syntactic check is exact: it holds if and only if no true verdict is possible without a page element. */
  lemma HasPageExactly(c: Condition)
    requires Bounded(c)
    ensures HasPage(c) <==> forall t :: Shape(t) == c && Verdict(t) == Some(true) ==> PageHeld(t)
  {
    if HasPage(c) {
      forall t | Shape(t) == c && Verdict(t) == Some(true)
        ensures PageHeld(t)
      {
        TrueVerdictHoldsPage(t);
      }
    } else {
      BlindVerdict(c);
    }
  }

  // ---- Selecting a node ----

  predicate Matches(node: map<string, string>, selector: map<string, string>) {
    forall k :: k in selector ==> k in node && node[k] == selector[k]
  }

  /** `select`: None when nothing matches, an error when several nodes match. */
  method Select(nodes: seq<map<string, string>>, selector: map<string, string>)
    returns (found: Result<Option<nat>, string>)
    ensures found.Err? <==> exists i, j ::
      0 <= i < j < |nodes| && Matches(nodes[i], selector) && Matches(nodes[j], selector)
    ensures found.Ok? && found.value.None? ==> forall i :: 0 <= i < |nodes| ==> !Matches(nodes[i], selector)
    ensures found.Ok? && found.value.Some? ==> found.value.value < |nodes|
    ensures found.Ok? && found.value.Some? ==>
      forall i :: 0 <= i < |nodes| ==> (Matches(nodes[i], selector) <==> i == found.value.value)
  {
    var matches: seq<nat> := [];
    for i := 0 to |nodes|
      invariant forall m :: m in matches <==> 0 <= m < i && Matches(nodes[m], selector)
      invariant forall a :: 0 <= a < |matches| ==> matches[a] < i
      invariant forall a, b :: 0 <= a < b < |matches| ==> matches[a] < matches[b]
    {
      if Matches(nodes[i], selector) {
        matches := matches + [i];
      }
    }
    if |matches| > 1 {
      assert matches[0] in matches && matches[1] in matches;
      return Err("page element is not unique");
    }
    found := Ok(if matches == [] then None else Some(matches[0]));
    assert matches != [] ==> matches[0] in matches;
  }
}
