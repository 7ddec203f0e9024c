/**
 * Prado.ValidationManager and Prado.Validation: the validators and summaries of
 * one form with their group scoping, and the page-wide registry of managers by
 * form ID.
 */
module ValidationManager {
  import opened Wrappers
  import opened ValidationRules
  import opened ValidationValidator
  import opened ValidationSummary
  import opened Text

  /** No element occurs twice. */
  predicate Distinct<T(==)>(s: seq<T>) {
    forall i, j :: 0 <= i < j < |s| ==> s[i] != s[j]
  }

  // ---------------------------------------------------------------- groups

  /** The validators whose group is g, in registration order. */
  function InGroup(vs: seq<Validator>, g: string): (r: seq<Validator>)
    ensures |r| <= |vs|
  {
    if vs == [] then []
    else (if vs[0].options.group == g then [vs[0]] else []) + InGroup(vs[1..], g)
  }

  /** The validators whose group is not g, in registration order. */
  function NotInGroup(vs: seq<Validator>, g: string): (r: seq<Validator>)
    ensures |r| <= |vs|
  {
    if vs == [] then []
    else (if vs[0].options.group != g then [vs[0]] else []) + NotInGroup(vs[1..], g)
  }

  /** The filters select exactly the validators with (and without) group g. */
  lemma {:induction false} GroupFilterMembers(vs: seq<Validator>, g: string)
    ensures forall k :: 0 <= k < |InGroup(vs, g)| ==> InGroup(vs, g)[k] in vs && InGroup(vs, g)[k].options.group == g
    ensures forall k :: 0 <= k < |NotInGroup(vs, g)| ==> NotInGroup(vs, g)[k] in vs && NotInGroup(vs, g)[k].options.group != g
    decreases |vs|
  {
    if vs != [] {
      GroupFilterMembers(vs[1..], g);
      assert vs == [vs[0]] + vs[1..];
    }
  }

  /** The filters drop no validator of the group g (and none outside it). */
  lemma {:induction false} GroupFilterComplete(vs: seq<Validator>, g: string)
    ensures forall k :: 0 <= k < |vs| && vs[k].options.group == g ==> vs[k] in InGroup(vs, g)
    ensures forall k :: 0 <= k < |vs| && vs[k].options.group != g ==> vs[k] in NotInGroup(vs, g)
    decreases |vs|
  {
    if vs != [] {
      GroupFilterComplete(vs[1..], g);
      assert forall k :: 1 <= k < |vs| ==> vs[k] == vs[1..][k - 1];
    }
  }

  /**
   * The two parts of a partition of distinct validators are themselves
   * distinct, are drawn from the validators and share no validator.
   */
  lemma PartitionParts(vs: seq<Validator>, groups: seq<string>, g: string)
    requires Distinct(vs)
    ensures Distinct(Partition(vs, groups, g).0) && Distinct(Partition(vs, groups, g).1)
    ensures forall k :: 0 <= k < |Partition(vs, groups, g).0| ==>
              Partition(vs, groups, g).0[k] in vs && Partition(vs, groups, g).0[k] !in Partition(vs, groups, g).1
    ensures forall k :: 0 <= k < |Partition(vs, groups, g).1| ==> Partition(vs, groups, g).1[k] in vs
  {
    FilterKeepsDistinct(vs, g);
    GroupFilterMembers(vs, g);
    if g == "" || g in groups {
      var p := Partition(vs, groups, g);
      forall k | 0 <= k < |p.0|
        ensures p.0[k] !in p.1
      {
        assert p.0[k].options.group == g;
      }
    }
  }

  /** Filtering keeps registration order: it distributes over concatenation. */
  lemma {:induction false} InGroupKeepsOrder(a: seq<Validator>, b: seq<Validator>, g: string)
    ensures InGroup(a + b, g) == InGroup(a, g) + InGroup(b, g)
    decreases |a|
  {
    if a == [] {
      assert a + b == b;
    } else {
      InGroupKeepsOrder(a[1..], b, g);
      var head := if a[0].options.group == g then [a[0]] else [];
      assert (a + b)[0] == a[0];
      assert (a + b)[1..] == a[1..] + b;
      calc {
        InGroup(a + b, g);
        head + InGroup(a[1..] + b, g);
        head + (InGroup(a[1..], g) + InGroup(b, g));
        (head + InGroup(a[1..], g)) + InGroup(b, g);
      }
    }
  }

  lemma {:induction false} NotInGroupKeepsOrder(a: seq<Validator>, b: seq<Validator>, g: string)
    ensures NotInGroup(a + b, g) == NotInGroup(a, g) + NotInGroup(b, g)
    decreases |a|
  {
    if a == [] {
      assert a + b == b;
    } else {
      NotInGroupKeepsOrder(a[1..], b, g);
      var head := if a[0].options.group != g then [a[0]] else [];
      assert (a + b)[0] == a[0];
      assert (a + b)[1..] == a[1..] + b;
      calc {
        NotInGroup(a + b, g);
        head + NotInGroup(a[1..] + b, g);
        head + (NotInGroup(a[1..], g) + NotInGroup(b, g));
        (head + NotInGroup(a[1..], g)) + NotInGroup(b, g);
      }
    }
  }

  /** The two filters split the validators: every validator lands in exactly one part, once. */
  lemma {:induction false} GroupFiltersSplit(vs: seq<Validator>, g: string)
    ensures multiset(InGroup(vs, g)) + multiset(NotInGroup(vs, g)) == multiset(vs)
    decreases |vs|
  {
    if vs != [] {
      GroupFiltersSplit(vs[1..], g);
      assert vs == [vs[0]] + vs[1..];
    }
  }

  lemma {:induction false} FilterKeepsDistinct(vs: seq<Validator>, g: string)
    requires Distinct(vs)
    ensures Distinct(InGroup(vs, g)) && Distinct(NotInGroup(vs, g))
    decreases |vs|
  {
    if vs != [] {
      FilterKeepsDistinct(vs[1..], g);
      GroupFilterMembers(vs[1..], g);
      assert vs[0] !in vs[1..];
    }
  }

  /** The groups of the validators in the order first seen, leaving out "" (no group). */
  function GroupsOf(vs: seq<Validator>): seq<string>
    decreases |vs|
  {
    if vs == [] then []
    else
      var gs := GroupsOf(vs[..|vs| - 1]);
      var g := vs[|vs| - 1].options.group;
      if g != "" && g !in gs then gs + [g] else gs
  }

  /** The recorded groups are duplicate-free and are exactly the non-empty groups of the validators. */
  lemma {:induction false} GroupsOfCharacterized(vs: seq<Validator>)
    ensures Distinct(GroupsOf(vs))
    ensures "" !in GroupsOf(vs)
    ensures forall x :: x in GroupsOf(vs) <==> x != "" && exists i :: 0 <= i < |vs| && vs[i].options.group == x
    decreases |vs|
  {
    if vs != [] {
      var init := vs[..|vs| - 1];
      GroupsOfCharacterized(init);
      forall x
        ensures x in GroupsOf(vs) <==> x != "" && exists i :: 0 <= i < |vs| && vs[i].options.group == x
      {
        if x != "" && (exists i :: 0 <= i < |vs| && vs[i].options.group == x) {
          var i :| 0 <= i < |vs| && vs[i].options.group == x;
          if i < |vs| - 1 {
            assert init[i] == vs[i];
          }
        }
        if x in GroupsOf(init) {
          var i :| 0 <= i < |init| && init[i].options.group == x;
          assert vs[i] == init[i];
        }
      }
    }
  }

  /**
   * validatorPartition: for no group, the ungrouped validators and the rest; for
   * a recorded group, its validators and the rest; for a group no validator has,
   * nothing at all.
   */
  function Partition(vs: seq<Validator>, groups: seq<string>, g: string): (seq<Validator>, seq<Validator>) {
    if g == "" || g in groups then (InGroup(vs, g), NotInGroup(vs, g)) else ([], [])
  }

  lemma {:induction false} NoMemberEmptyGroup(vs: seq<Validator>, g: string)
    requires forall i :: 0 <= i < |vs| ==> vs[i].options.group != g
    ensures InGroup(vs, g) == []
    decreases |vs|
  {
    if vs != [] {
      NoMemberEmptyGroup(vs[1..], g);
    }
  }

  /**
   * With the groups recorded from the validators, a group no validator has
   * selects no validator even by filtering, but the partition also leaves every
   * other validator out of part [1], so none of them is hidden.
   */
  lemma UnknownGroupTouchesNothing(vs: seq<Validator>, g: string)
    requires g != "" && g !in GroupsOf(vs)
    ensures InGroup(vs, g) == []
    ensures Partition(vs, GroupsOf(vs), g) == ([], [])
  {
    GroupsOfCharacterized(vs);
    assert forall i :: 0 <= i < |vs| ==> vs[i].options.group != g;
    NoMemberEmptyGroup(vs, g);
  }

  /** For no group or a recorded one, the two parts are a split of all validators. */
  lemma PartitionSplits(vs: seq<Validator>, groups: seq<string>, g: string)
    requires g == "" || g in groups
    ensures multiset(Partition(vs, groups, g).0) + multiset(Partition(vs, groups, g).1) == multiset(vs)
    ensures forall v :: v in Partition(vs, groups, g).0 ==> v.options.group == g
    ensures forall v :: v in Partition(vs, groups, g).1 ==> v.options.group != g
  {
    assert Partition(vs, groups, g) == (InGroup(vs, g), NotInGroup(vs, g));
    GroupFiltersSplit(vs, g);
    GroupFilterMembers(vs, g);
  }

  // ---------------------------------------------------------------- validator state reads

  /** Every validator of vs is valid. */
  predicate AllValid(vs: seq<Validator>)
    reads vs
  {
    forall k :: 0 <= k < |vs| ==> vs[k].isValid
  }

  /** The validators of vs that are not valid, in order. */
  function WithError(vs: seq<Validator>): (r: seq<Validator>)
    reads vs
    ensures |r| <= |vs|
  {
    if vs == [] then []
    else
      var rest := WithError(vs[1..]);
      if !vs[0].isValid then [vs[0]] + rest else rest
  }

  /** The ErrorMessage options of vs, in order. */
  function ErrorMessages(vs: seq<Validator>): (r: seq<string>)
    reads vs
    ensures |r| == |vs|
  {
    if vs == [] then [] else [vs[0].errorMessage] + ErrorMessages(vs[1..])
  }

  /** The error messages of the invalid validators of vs, in order. */
  function ErrorsIn(vs: seq<Validator>): (r: seq<string>)
    reads vs
    ensures |r| <= |vs|
    ensures vs != [] && !vs[0].isValid ==> r != [] && r[0] == vs[0].errorMessage
  {
    if vs == [] then []
    else (if vs[0].isValid then [] else [vs[0].errorMessage]) + ErrorsIn(vs[1..])
  }

  lemma {:induction false} NoErrorsWhenAllValid(vs: seq<Validator>)
    requires AllValid(vs)
    ensures ErrorsIn(vs) == []
    decreases |vs|
  {
    if vs != [] {
      NoErrorsWhenAllValid(vs[1..]);
    }
  }

  /** Collecting the messages in one pass is the same as picking the invalid validators and then their messages. */
  lemma {:induction false} ErrorsInPicksThenPlucks(vs: seq<Validator>)
    ensures ErrorsIn(vs) == ErrorMessages(WithError(vs))
    decreases |vs|
  {
    if vs != [] {
      ErrorsInPicksThenPlucks(vs[1..]);
      if !vs[0].isValid {
        assert ErrorMessages([vs[0]] + WithError(vs[1..])) == [vs[0].errorMessage] + ErrorMessages(WithError(vs[1..]));
      }
    }
  }

  /**
   * The validators with an error are exactly the invalid ones, kept in order;
   * there are none exactly when all are valid.
   */
  lemma {:induction false} WithErrorMembers(vs: seq<Validator>)
    ensures forall k :: 0 <= k < |WithError(vs)| ==> WithError(vs)[k] in vs && !WithError(vs)[k].isValid
    ensures forall k :: 0 <= k < |vs| && !vs[k].isValid ==> vs[k] in WithError(vs)
    ensures WithError(vs) == [] <==> AllValid(vs)
    decreases |vs|
  {
    if vs != [] {
      WithErrorMembers(vs[1..]);
      assert forall k :: 1 <= k < |vs| ==> vs[k] == vs[1..][k - 1];
    }
  }

  /** The messages are the validators' error messages, one each, in order. */
  lemma {:induction false} ErrorMessagesAt(vs: seq<Validator>)
    ensures forall k :: 0 <= k < |vs| ==> ErrorMessages(vs)[k] == vs[k].errorMessage
    decreases |vs|
  {
    if vs != [] {
      ErrorMessagesAt(vs[1..]);
    }
  }

  /** The index of the first invalid validator asking for focus, if any. */
  function FocusIndex(vs: seq<Validator>): (r: Option<nat>)
    reads vs
    ensures r.Some? ==> r.value < |vs|
  {
    if vs == [] then None
    else if !vs[0].isValid && vs[0].options.focusOnError then Some(0)
    else match FocusIndex(vs[1..])
      case None => None
      case Some(i) => Some(i + 1)
  }

  /**
   * The focus index names an invalid validator asking for focus with none
   * before it; without one, every validator is valid or does not ask.
   */
  lemma {:induction false} FocusIndexCases(vs: seq<Validator>)
    ensures FocusIndex(vs).None? ==> forall i :: 0 <= i < |vs| ==> vs[i].isValid || !vs[i].options.focusOnError
    ensures FocusIndex(vs).Some? ==>
              !vs[FocusIndex(vs).value].isValid && vs[FocusIndex(vs).value].options.focusOnError
              && forall i :: 0 <= i < FocusIndex(vs).value ==> vs[i].isValid || !vs[i].options.focusOnError
    decreases |vs|
  {
    if vs != [] {
      FocusIndexCases(vs[1..]);
    }
  }

  /** focusOnError's loop: the index of the first invalid validator asking for focus. */
  method FocusOnError(vs: seq<Validator>) returns (r: Option<nat>)
    ensures r == FocusIndex(vs)
  {
    FocusIndexCases(vs);
    var i := 0;
    while i < |vs|
      invariant 0 <= i <= |vs|
      invariant forall j :: 0 <= j < i ==> vs[j].isValid || !vs[j].options.focusOnError
    {
      if !vs[i].isValid && vs[i].options.focusOnError {
        return Some(i);
      }
      i := i + 1;
    }
    return None;
  }

  /** The states of vs, in order. */
  function StatesOf(vs: seq<Validator>): (r: seq<ValidatorState>)
    reads vs
    ensures |r| == |vs|
  {
    if vs == [] then [] else [vs[0].State()] + StatesOf(vs[1..])
  }

  lemma {:induction false} StatesOfAt(vs: seq<Validator>)
    ensures forall k :: 0 <= k < |vs| ==> StatesOf(vs)[k] == vs[k].State()
    decreases |vs|
  {
    if vs != [] {
      StatesOfAt(vs[1..]);
    }
  }

  /** Each state of ss after validating the matching validator of vs. */
  function ValidatedAll(vs: seq<Validator>, ss: seq<ValidatorState>, doc: Document, f: Foreign): seq<ValidatorState>
    requires |ss| == |vs|
  {
    if vs == [] then [] else [Validated(vs[0].options, ss[0], doc, f)] + ValidatedAll(vs[1..], ss[1..], doc, f)
  }

  lemma {:induction false} ValidatedAllAt(vs: seq<Validator>, ss: seq<ValidatorState>, doc: Document, f: Foreign)
    requires |ss| == |vs|
    ensures |ValidatedAll(vs, ss, doc, f)| == |vs|
    ensures forall k :: 0 <= k < |vs| ==> ValidatedAll(vs, ss, doc, f)[k] == Validated(vs[k].options, ss[k], doc, f)
    decreases |vs|
  {
    if vs != [] {
      ValidatedAllAt(vs[1..], ss[1..], doc, f);
    }
  }

  /** Each state of ss, hidden. */
  function HiddenAll(ss: seq<ValidatorState>): (r: seq<ValidatorState>)
    ensures |r| == |ss|
  {
    if ss == [] then [] else [HiddenState(ss[0])] + HiddenAll(ss[1..])
  }

  lemma {:induction false} HiddenAllAt(ss: seq<ValidatorState>)
    ensures forall k :: 0 <= k < |ss| ==> HiddenAll(ss)[k] == HiddenState(ss[k])
    decreases |ss|
  {
    if ss != [] {
      HiddenAllAt(ss[1..]);
    }
  }

  /** Each state of ss, reset. */
  function ResetAll(ss: seq<ValidatorState>): (r: seq<ValidatorState>)
    ensures |r| == |ss|
  {
    if ss == [] then [] else [ResetState(ss[0])] + ResetAll(ss[1..])
  }

  lemma {:induction false} ResetAllAt(ss: seq<ValidatorState>)
    ensures forall k :: 0 <= k < |ss| ==> ResetAll(ss)[k] == ResetState(ss[k])
    decreases |ss|
  {
    if ss != [] {
      ResetAllAt(ss[1..]);
    }
  }

  /** One step of `invoke('validate')`, stated against the state it must reach. */
  method ValidateInto(v: Validator, doc: Document, f: Foreign, ghost target: ValidatorState) returns (valid: bool)
    requires target == Validated(v.options, v.State(), doc, f)
    modifies v
    ensures v.State() == target && valid == target.isValid
  {
    valid := v.Validate(doc, f);
  }

  /** `invoke('validate')`: each validator of vs, in order, reaches its target state; the results are collected. */
  method ValidateLoop(vs: seq<Validator>, doc: Document, f: Foreign, ghost target: seq<ValidatorState>) returns (results: seq<bool>)
    requires Distinct(vs) && |target| == |vs|
    requires forall k :: 0 <= k < |vs| ==> target[k] == Validated(vs[k].options, vs[k].State(), doc, f)
    modifies vs
    ensures |results| == |vs|
    ensures forall k :: 0 <= k < |vs| ==> vs[k].State() == target[k] && results[k] == target[k].isValid
  {
    results := [];
    for i := 0 to |vs|
      invariant |results| == i
      invariant forall k :: 0 <= k < i ==> vs[k].State() == target[k] && results[k] == target[k].isValid
      invariant forall k :: i <= k < |vs| ==> vs[k].State() == old(vs[k].State())
    {
      var v := ValidateInto(vs[i], doc, f, target[i]);
      results := results + [v];
    }
  }

  /**
   * `partition[0].invoke('validate', source).all()`: every validator of vs is
   * validated in order and the verdict is true exactly when all of them are now
   * valid; the validators of others, none of which is in vs, keep their states.
   */
  method ValidateEach(vs: seq<Validator>, doc: Document, f: Foreign, ghost others: seq<Validator>) returns (valid: bool)
    requires Distinct(vs)
    requires forall k :: 0 <= k < |others| ==> others[k] !in vs
    modifies vs
    ensures StatesOf(vs) == ValidatedAll(vs, old(StatesOf(vs)), doc, f)
    ensures valid == AllValid(vs)
    ensures StatesOf(others) == old(StatesOf(others))
  {
    StatesOfAt(vs);
    ghost var before := StatesOf(vs);
    ghost var target := ValidatedAll(vs, before, doc, f);
    ValidatedAllAt(vs, before, doc, f);
    var results := ValidateLoop(vs, doc, f, target);
    valid := forall k :: 0 <= k < |results| ==> results[k];
    StatesOfAt(vs);
  }

  /**
   * Hides each validator of vs; the validators of others, none of which is in
   * vs, keep their states, so their verdicts and focus index stay.
   */
  method HideEach(vs: seq<Validator>, ghost others: seq<Validator>)
    requires Distinct(vs)
    requires forall k :: 0 <= k < |others| ==> others[k] !in vs
    modifies vs
    ensures StatesOf(vs) == HiddenAll(old(StatesOf(vs)))
    ensures StatesOf(others) == old(StatesOf(others))
    ensures AllValid(others) == old(AllValid(others))
    ensures FocusIndex(others) == old(FocusIndex(others))
  {
    StatesOfAt(vs);
    ghost var before := StatesOf(vs);
    var i := 0;
    while i < |vs|
      invariant 0 <= i <= |vs|
      invariant forall k :: 0 <= k < i ==> vs[k].State() == HiddenState(before[k])
      invariant forall k :: i <= k < |vs| ==> vs[k].State() == before[k]
    {
      vs[i].Hide();
      i := i + 1;
    }
    HiddenAllAt(before);
    StatesOfAt(vs);
  }

  /** Resets each validator of vs. */
  method ResetEach(vs: seq<Validator>)
    requires Distinct(vs)
    modifies vs
    ensures StatesOf(vs) == ResetAll(old(StatesOf(vs)))
    ensures AllValid(vs)
  {
    StatesOfAt(vs);
    ghost var before := StatesOf(vs);
    var i := 0;
    while i < |vs|
      invariant 0 <= i <= |vs|
      invariant forall k :: 0 <= k < i ==> vs[k].State() == ResetState(before[k])
      invariant forall k :: i <= k < |vs| ==> vs[k].State() == before[k]
    {
      vs[i].Reset();
      i := i + 1;
    }
    ResetAllAt(before);
    StatesOfAt(vs);
  }

  /** The focus element of the validator at index i of vs, if any. */
  function FocusTarget(vs: seq<Validator>, i: Option<nat>): (r: Option<string>)
    requires i.Some? ==> i.value < |vs|
    ensures r.Some? <==> i.Some?
  {
    match i
    case None => None
    case Some(k) => Some(vs[k].options.focusElementId)
  }

  /**
   * The validator half of validate: the validators in scope are validated,
   * the first invalid one asking for focus is reported, and the validators out
   * of scope are hidden.
   */
  method ValidateScope(inScope: seq<Validator>, outOfScope: seq<Validator>, doc: Document, f: Foreign)
    returns (valid: bool, focus: Option<string>)
    requires Distinct(inScope) && Distinct(outOfScope)
    requires forall k :: 0 <= k < |inScope| ==> inScope[k] !in outOfScope
    modifies inScope, outOfScope
    ensures StatesOf(inScope) == ValidatedAll(inScope, old(StatesOf(inScope)), doc, f)
    ensures StatesOf(outOfScope) == HiddenAll(old(StatesOf(outOfScope)))
    ensures valid == AllValid(inScope)
    ensures focus == FocusTarget(inScope, FocusIndex(inScope))
  {
    valid := ValidateEach(inScope, doc, f, outOfScope);
    var first := FocusOnError(inScope);
    focus := FocusTarget(inScope, first);
    HideEach(outOfScope, inScope);
  }

  /**
   * Which summaries an update for group g reaches: for a group, the summaries of
   * that group; for no group, the ungrouped summaries. With "" for no group both
   * cases are one equality.
   */
  predicate SummaryInScope(summaryGroup: string, g: string) {
    (g != "" && summaryGroup == g) || (g == "" && summaryGroup == "")
  }

  /** What a summary shows after updateSummary(g) with the given error messages, given what it showed before. */
  function SummaryAfter(o: SummaryOptions, before: SummaryView, g: string, errors: seq<string>, update: bool): SummaryView {
    if SummaryInScope(o.group, g) then UpdatedView(o, before, errors, update) else HiddenView(before)
  }

  /** One step of updateSummary's loop: the summary is updated when it is in scope, hidden otherwise. */
  method RefreshOne(s: Summary, g: string, errors: seq<string>, update: bool)
    modifies s
    ensures s.View() == SummaryAfter(s.options, old(s.View()), g, errors, update)
  {
    if SummaryInScope(s.options.group, g) {
      s.UpdateSummary(errors, update);
    } else {
      s.HideSummary();
    }
  }

  /**
   * updateSummary's loop over the summaries: each summary of group g gets the
   * error messages, every other one is hidden. The validators of inScope and
   * outOfScope keep their states, verdicts, focus index and error messages.
   */
  method RefreshSummaries(sums: seq<Summary>, g: string, errors: seq<string>, update: bool,
                          ghost inScope: seq<Validator>, ghost outOfScope: seq<Validator>)
    requires Distinct(sums)
    modifies sums
    ensures forall k :: 0 <= k < |sums| ==>
              sums[k].View() == SummaryAfter(sums[k].options, old(sums[k].View()), g, errors, update)
    ensures StatesOf(inScope) == old(StatesOf(inScope)) && StatesOf(outOfScope) == old(StatesOf(outOfScope))
    ensures AllValid(inScope) == old(AllValid(inScope)) && FocusIndex(inScope) == old(FocusIndex(inScope))
    ensures ErrorsIn(inScope) == old(ErrorsIn(inScope))
  {
    RefreshLoop(sums, g, errors, update);
  }

  /** The loop of updateSummary over the summaries, in order. */
  method RefreshLoop(sums: seq<Summary>, g: string, errors: seq<string>, update: bool)
    requires Distinct(sums)
    modifies sums
    ensures forall k :: 0 <= k < |sums| ==>
              sums[k].View() == SummaryAfter(sums[k].options, old(sums[k].View()), g, errors, update)
  {
    for i := 0 to |sums|
      invariant forall k :: 0 <= k < i ==>
                  sums[k].View() == SummaryAfter(sums[k].options, old(sums[k].View()), g, errors, update)
      invariant forall k :: i <= k < |sums| ==> sums[k].View() == old(sums[k].View())
    {
      RefreshOne(sums[i], g, errors, update);
    }
  }

  /**
   * validate on the manager's lists: the validator half, then updateSummary
   * forcing a refresh with the error messages the validation left.
   */
  method ValidateAndSummarize(inScope: seq<Validator>, outOfScope: seq<Validator>, sums: seq<Summary>,
                              g: string, doc: Document, f: Foreign, ghost owner: Manager)
    returns (valid: bool, focus: Option<string>)
    requires Distinct(inScope) && Distinct(outOfScope) && Distinct(sums)
    requires forall k :: 0 <= k < |inScope| ==> inScope[k] !in outOfScope
    modifies inScope, outOfScope, sums
    ensures StatesOf(inScope) == ValidatedAll(inScope, old(StatesOf(inScope)), doc, f)
    ensures StatesOf(outOfScope) == HiddenAll(old(StatesOf(outOfScope)))
    ensures valid == AllValid(inScope)
    ensures focus == FocusTarget(inScope, FocusIndex(inScope))
    ensures forall k :: 0 <= k < |sums| ==>
              sums[k].View() == SummaryAfter(sums[k].options, old(sums[k].View()), g, ErrorsIn(inScope), true)
    ensures unchanged(owner)
  {
    valid, focus := ValidateScope(inScope, outOfScope, doc, f);
    RefreshSummaries(sums, g, ErrorsIn(inScope), true, inScope, outOfScope);
  }

  lemma SummaryScopeIsGroupEquality(summaryGroup: string, g: string)
    ensures SummaryInScope(summaryGroup, g) <==> summaryGroup == g
  {
  }

  // ---------------------------------------------------------------- the manager

  /**
   * Every validator of the set whose ID is the one named takes the message.
   * The validators are visited in no particular order: each visit writes the
   * same message, so the order cannot be observed.
   */
  method RelabelAll(vs: set<Validator>, validatorId: string, message: string)
    modifies vs
    ensures forall v :: v in vs && v.options.id == validatorId ==>
              v.State() == old(v.State()).(errorMessage := message)
    ensures forall v :: v in vs && v.options.id != validatorId ==> unchanged(v)
  {
    var pending := vs;
    while pending != {}
      invariant pending <= vs
      invariant forall v :: v in vs && v !in pending && v.options.id == validatorId ==>
                  v.State() == old(v.State()).(errorMessage := message)
      invariant forall v :: v in vs && (v in pending || v.options.id != validatorId) ==> unchanged(v)
      decreases pending
    {
      var v :| v in pending;
      if v.options.id == validatorId {
        v.SetErrorMessage(message);
      }
      pending := pending - {v};
    }
  }

  class Manager {
    const formId: string
    var validators: seq<Validator>
    var summaries: seq<Summary>
    var groups: seq<string>

    /** Each validator and summary is registered once, and groups is recorded from the validators. */
    ghost predicate Valid()
      reads this
    {
      Distinct(validators) && Distinct(summaries) && groups == GroupsOf(validators)
    }

    /**
     * ValidationManager.initialize: empty lists; the manager becomes the form's
     * manager in the registry unless the form already has one.
     */
    constructor(formId: string, registry: Coordinator)
      requires registry.Valid()
      modifies registry
      ensures this.formId == formId && validators == [] && summaries == [] && groups == []
      ensures Valid()
      ensures registry.managers ==
                if formId in old(registry.managers) then old(registry.managers) else old(registry.managers)[formId := this]
      ensures registry.forms ==
                if formId in old(registry.managers) then old(registry.forms) else old(registry.forms) + [formId]
      ensures registry.Valid()
    {
      this.formId := formId;
      validators := [];
      summaries := [];
      groups := [];
      new;
      registry.Register(this);
    }

    /** validatorPartition(g)[0]: the validators g selects. */
    function InScope(g: string): seq<Validator>
      reads this
    {
      Partition(validators, groups, g).0
    }

    /** validatorPartition(g)[1]: the validators g hides. */
    function OutOfScope(g: string): seq<Validator>
      reads this
    {
      Partition(validators, groups, g).1
    }

    /** isValid: every validator in scope is valid; nothing changes. */
    function IsValid(g: string): bool
      reads this, validators
    {
      GroupFilterMembers(validators, g);
      AllValid(InScope(g))
    }

    /** getValidatorsWithError: the invalid validators in scope, in order. */
    function GetValidatorsWithError(g: string): (r: seq<Validator>)
      reads this, validators
      ensures |r| <= |InScope(g)|
      ensures forall k :: 0 <= k < |r| ==> r[k] in InScope(g) && !r[k].isValid
      ensures r == [] <==> IsValid(g)
    {
      GroupFilterMembers(validators, g);
      WithErrorMembers(InScope(g));
      WithError(InScope(g))
    }

    /**
     * The error messages updateSummary(g) hands to the summaries: those of
     * getValidatorsWithError(g), in order (ErrorsInPicksThenPlucks).
     */
    function ErrorsOf(g: string): seq<string>
      reads this, validators
    {
      GroupFilterMembers(validators, g);
      ErrorsIn(InScope(g))
    }

    /** addValidator: appended; its group is recorded the first time it is seen. */
    method AddValidator(v: Validator)
      requires Valid() && v !in validators
      modifies this
      ensures validators == old(validators) + [v] && summaries == old(summaries)
      ensures groups == if v.options.group != "" && v.options.group !in old(groups)
                        then old(groups) + [v.options.group] else old(groups)
      ensures Valid()
    {
      assert (validators + [v])[..|validators|] == validators;
      validators := validators + [v];
      if v.options.group != "" && v.options.group !in groups {
        groups := groups + [v.options.group];
      }
    }

    /** addSummary: appended. */
    method AddSummary(s: Summary)
      requires Valid() && s !in summaries
      modifies this
      ensures summaries == old(summaries) + [s] && validators == old(validators) && groups == old(groups)
      ensures Valid()
    {
      summaries := summaries + [s];
    }

    /**
     * updateSummary: the summaries of the group get the error messages of the
     * group's invalid validators; every other summary is hidden.
     */
    method UpdateSummary(g: string, update: bool)
      requires Valid()
      modifies summaries
      ensures forall k :: 0 <= k < |summaries| ==>
                summaries[k].View() == SummaryAfter(summaries[k].options, old(summaries[k].View()), g, old(ErrorsOf(g)), update)
      ensures forall k :: 0 <= k < |validators| ==> validators[k].State() == old(validators[k].State())
      ensures StatesOf(InScope(g)) == old(StatesOf(InScope(g))) && StatesOf(OutOfScope(g)) == old(StatesOf(OutOfScope(g)))
      ensures IsValid(g) == old(IsValid(g)) && FocusIndex(InScope(g)) == old(FocusIndex(InScope(g)))
      ensures ErrorsOf(g) == old(ErrorsOf(g))
      ensures unchanged(this)
    {
      label start:
      RefreshSummaries(summaries, g, ErrorsOf(g), update, InScope(g), OutOfScope(g));
      assert unchanged@start(this);
    }

    /**
     * validate: every validator in scope is validated (all of them, no
     * short-circuit), the first invalid one asking for focus is reported, every
     * validator out of scope is hidden, and then the summaries are updated
     * (forcing a refresh); the result is whether all validators in scope are
     * valid. An unknown group selects no validator, so none changes.
     */
    method Validate(g: string, doc: Document, f: Foreign) returns (valid: bool, focus: Option<string>)
      requires Valid()
      modifies validators, summaries
      ensures StatesOf(InScope(g)) == ValidatedAll(InScope(g), old(StatesOf(InScope(g))), doc, f)
      ensures StatesOf(OutOfScope(g)) == HiddenAll(old(StatesOf(OutOfScope(g))))
      ensures g != "" && g !in groups ==> forall k :: 0 <= k < |validators| ==> validators[k].State() == old(validators[k].State())
      ensures valid == IsValid(g)
      ensures focus == FocusTarget(InScope(g), FocusIndex(InScope(g)))
      ensures forall k :: 0 <= k < |summaries| ==>
                summaries[k].View() == SummaryAfter(summaries[k].options, old(summaries[k].View()), g, ErrorsOf(g), true)
      ensures unchanged(this)
    {
      var inScope, outOfScope := InScope(g), OutOfScope(g);
      PartitionParts(validators, groups, g);
      valid, focus := ValidateAndSummarize(inScope, outOfScope, summaries, g, doc, f, this);
    }

    /**
     * reset: every validator in scope becomes valid and shown, and the summaries
     * are updated, which with no errors left hides every one of them.
     */
    method Reset(g: string)
      requires Valid()
      modifies validators, summaries
      ensures StatesOf(InScope(g)) == ResetAll(old(StatesOf(InScope(g))))
      ensures forall k :: 0 <= k < |validators| && validators[k] !in InScope(g) ==>
                validators[k].State() == old(validators[k].State())
      ensures IsValid(g)
      ensures forall k :: 0 <= k < |summaries| ==> summaries[k].View() == HiddenView(old(summaries[k].View()))
      ensures unchanged(this)
    {
      var inScope := InScope(g);
      PartitionParts(validators, groups, g);
      label start:
      ResetEach(inScope);
      assert unchanged@start(this);
      assert InScope(g) == inScope;
      NoErrorsWhenAllValid(inScope);
      assert forall k :: 0 <= k < |summaries| ==> summaries[k].View() == old(summaries[k].View());
      ghost var after := StatesOf(inScope);
      UpdateSummary(g, true);
      assert InScope(g) == inScope;
      assert StatesOf(inScope) == after;
    }

    /**
     * The change handler observeChanges installs: a visible validator is
     * validated again and its group's summaries are updated (without forcing);
     * a hidden validator ignores the change.
     */
    method OnControlChange(v: Validator, doc: Document, f: Foreign)
      requires Valid() && v in validators
      modifies v, summaries
      ensures !old(v.visible) ==>
                v.State() == old(v.State())
                && forall k :: 0 <= k < |summaries| ==> summaries[k].View() == old(summaries[k].View())
      ensures old(v.visible) ==>
                v.State() == Validated(v.options, old(v.State()), doc, f)
                && forall k :: 0 <= k < |summaries| ==>
                     summaries[k].View() == SummaryAfter(summaries[k].options, old(summaries[k].View()), v.options.group, ErrorsOf(v.options.group), false)
    {
      if v.visible {
        var _ := v.Validate(doc, f);
        UpdateSummary(v.options.group, false);
      }
    }
  }

  // ---------------------------------------------------------------- the registry

  /**
   * A canonical array index ("0", "42"; not "042" nor "4294967295"). JavaScript
   * enumerates an object's property names that are array indices first, in
   * ascending numeric order, and the other names after them in insertion order.
   */
  predicate IsArrayIndex(name: string) {
    |name| >= 1 && (forall i :: 0 <= i < |name| ==> IsDigit(name[i]))
    && (name[0] == '0' ==> |name| == 1)
    && DecimalValue(name) < 0xFFFF_FFFF
  }

  function IndexValue(name: string): nat
    requires IsArrayIndex(name)
  {
    DecimalValue(name)
  }

  /** The array-index name of least value among names, if there is one. */
  function LeastIndexName(names: seq<string>): (r: Option<string>)
    ensures r.Some? ==> r.value in names && IsArrayIndex(r.value)
    ensures r.None? ==> forall i :: 0 <= i < |names| ==> !IsArrayIndex(names[i])
    ensures r.Some? ==> forall i :: 0 <= i < |names| && IsArrayIndex(names[i]) ==> IndexValue(r.value) <= IndexValue(names[i])
  {
    if names == [] then None
    else
      var rest := LeastIndexName(names[1..]);
      assert forall i :: 1 <= i < |names| ==> names[i] == names[1..][i - 1];
      if !IsArrayIndex(names[0]) then rest
      else if rest.None? || IndexValue(names[0]) <= IndexValue(rest.value) then Some(names[0])
      else rest
  }

  /**
   * The first key `$H(managers).keys()` lists, for managers registered under
   * the given form IDs in that order: the array-index ID of least value if
   * there is one, otherwise the first ID registered.
   */
  function FirstKey(names: seq<string>): (r: Option<string>)
    ensures r.Some? <==> names != []
    ensures r.Some? ==> r.value in names
    ensures r.Some? && IsArrayIndex(r.value) ==>
              forall i :: 0 <= i < |names| && IsArrayIndex(names[i]) ==> IndexValue(r.value) <= IndexValue(names[i])
    ensures r.Some? && !IsArrayIndex(r.value) ==>
              r.value == names[0] && forall i :: 0 <= i < |names| ==> !IsArrayIndex(names[i])
  {
    match LeastIndexName(names)
    case Some(n) => Some(n)
    case None => if names == [] then None else Some(names[0])
  }

  /** Registering "main" and then "2" makes "2" the first key. */
  lemma FirstKeyPrefersIndex()
    ensures FirstKey(["main", "2"]) == Some("2")
  {
    assert IsArrayIndex("2");
    assert !IsArrayIndex("main");
    assert LeastIndexName(["main", "2"][1..]) == Some("2");
  }

  /** Array indices come in ascending numeric order, not in registration order. */
  lemma FirstKeyOrdersIndices()
    ensures FirstKey(["10", "main", "9"]) == Some("9")
  {
    assert DecimalValue("1") == 1;
    assert IsArrayIndex("10") && IndexValue("10") == 10;
    assert IsArrayIndex("9") && IndexValue("9") == 9;
    assert !IsArrayIndex("main");
    assert LeastIndexName(["9"]) == Some("9");
    assert ["10", "main", "9"][1..][1..] == ["9"];
    assert LeastIndexName(["10", "main", "9"][1..]) == Some("9");
  }

  /** A name with a leading zero is no array index, so the first name registered stays first. */
  lemma FirstKeyLeadingZero()
    ensures FirstKey(["main", "007"]) == Some("main")
  {
    assert !IsArrayIndex("main") && !IsArrayIndex("007");
    assert LeastIndexName(["main", "007"][1..]) == None;
  }

  class Coordinator {
    /** Prado.Validation.managers. */
    var managers: map<string, Manager>
    /** The form IDs in the order their managers were registered. */
    var forms: seq<string>

    ghost predicate Valid()
      reads this, managers.Values
    {
      Distinct(forms)
      && (forall id :: id in managers <==> id in forms)
      && (forall id :: id in managers ==> managers[id].formId == id && managers[id].Valid())
    }

    constructor()
      ensures managers == map[] && forms == [] && Valid()
    {
      managers := map[];
      forms := [];
    }

    /** The registration step of ValidationManager.initialize: the first manager of a form wins. */
    method Register(m: Manager)
      requires Valid() && m.Valid()
      modifies this
      ensures managers == if m.formId in old(managers) then old(managers) else old(managers)[m.formId := m]
      ensures forms == if m.formId in old(managers) then old(forms) else old(forms) + [m.formId]
      ensures Valid()
    {
      if m.formId !in managers {
        managers := managers[m.formId := m];
        forms := forms + [m.formId];
      }
    }

    /**
     * getForm: the first key of the managers map in JavaScript's enumeration
     * order, i.e. the array-index form ID of least value, otherwise the first
     * form registered; None when no form is registered.
     */
    function GetForm(): (r: Option<string>)
      reads this
      ensures r.Some? <==> forms != []
      ensures r.Some? ==> r.value in forms
      ensures r.Some? && !IsArrayIndex(r.value) ==> r.value == forms[0]
      ensures r.Some? && IsArrayIndex(r.value) ==>
                forall i :: 0 <= i < |forms| && IsArrayIndex(forms[i]) ==> IndexValue(r.value) <= IndexValue(forms[i])
    {
      FirstKey(forms)
    }

    /** `formID || getForm()`: the form named, or the first form when none is named. */
    function FormOf(formId: string): Option<string>
      reads this
    {
      if formId != "" then Some(formId) else GetForm()
    }

    /** Every validator object of every manager. */
    function ValidatorObjects(): set<Validator>
      reads this, managers.Values
    {
      set m, v | m in managers.Values && v in m.validators :: v
    }

    /** Every summary object of every manager. */
    function SummaryObjects(): set<Summary>
      reads this, managers.Values
    {
      set m, s | m in managers.Values && s in m.summaries :: s
    }

    lemma ManagerObjects(m: Manager)
      requires m in managers.Values
      ensures forall k :: 0 <= k < |m.validators| ==> m.validators[k] in ValidatorObjects()
      ensures forall k :: 0 <= k < |m.summaries| ==> m.summaries[k] in SummaryObjects()
    {
      forall k | 0 <= k < |m.validators|
        ensures m.validators[k] in ValidatorObjects()
      {
        var v := m.validators[k];
        assert m in managers.Values && v in m.validators;
      }
      forall k | 0 <= k < |m.summaries|
        ensures m.summaries[k] in SummaryObjects()
      {
        var s := m.summaries[k];
        assert m in managers.Values && s in m.summaries;
      }
    }

    /**
     * validate: the form's manager validates the group and its verdict is the
     * result; a form without a manager is an error and nothing changes. The
     * validators and summaries of the other managers keep their state.
     */
    method Validate(formId: string, g: string, doc: Document, f: Foreign) returns (r: Result<bool>, focus: Option<string>)
      requires Valid()
      modifies ValidatorObjects(), SummaryObjects()
      ensures FormOf(formId).None? || FormOf(formId).value !in managers ==>
                r.Failure? && focus.None? && unchanged(ValidatorObjects()) && unchanged(SummaryObjects())
      ensures FormOf(formId).Some? && FormOf(formId).value in managers ==>
                var m := managers[FormOf(formId).value];
                r == Success(m.IsValid(g)) && focus == FocusTarget(m.InScope(g), FocusIndex(m.InScope(g)))
                && StatesOf(m.InScope(g)) == ValidatedAll(m.InScope(g), old(StatesOf(m.InScope(g))), doc, f)
                && StatesOf(m.OutOfScope(g)) == HiddenAll(old(StatesOf(m.OutOfScope(g))))
                && (forall k :: 0 <= k < |m.summaries| ==>
                      m.summaries[k].View() == SummaryAfter(m.summaries[k].options, old(m.summaries[k].View()), g, m.ErrorsOf(g), true))
                && (forall v :: v in old(ValidatorObjects()) && v !in m.validators ==> unchanged(v))
                && (forall s :: s in old(SummaryObjects()) && s !in m.summaries ==> unchanged(s))
      ensures managers == old(managers) && forms == old(forms)
      ensures Valid()
    {
      var id := FormOf(formId);
      if id.None? || id.value !in managers {
        return Failure("the form is not registered"), None;
      }
      var valid;
      valid, focus := ValidateWith(managers[id.value], g, doc, f);
      r := Success(valid);
    }

    /** The registered-form step of validate: m validates the group and nothing outside m changes. */
    method ValidateWith(m: Manager, g: string, doc: Document, f: Foreign) returns (valid: bool, focus: Option<string>)
      requires Valid() && m in managers.Values
      modifies ValidatorObjects(), SummaryObjects()
      ensures valid == m.IsValid(g) && focus == FocusTarget(m.InScope(g), FocusIndex(m.InScope(g)))
      ensures StatesOf(m.InScope(g)) == ValidatedAll(m.InScope(g), old(StatesOf(m.InScope(g))), doc, f)
      ensures StatesOf(m.OutOfScope(g)) == HiddenAll(old(StatesOf(m.OutOfScope(g))))
      ensures forall k :: 0 <= k < |m.summaries| ==>
                m.summaries[k].View() == SummaryAfter(m.summaries[k].options, old(m.summaries[k].View()), g, m.ErrorsOf(g), true)
      ensures forall v :: v in old(ValidatorObjects()) && v !in m.validators ==> unchanged(v)
      ensures forall s :: s in old(SummaryObjects()) && s !in m.summaries ==> unchanged(s)
      ensures unchanged(this)
      ensures Valid()
    {
      ManagerObjects(m);
      valid, focus := m.Validate(g, doc, f);
    }

    /** isValid: the form's manager decides; a form without a manager is valid. Nothing changes. */
    function IsValid(formId: string, g: string): (r: bool)
      reads this, managers.Values, ValidatorObjects()
      ensures FormOf(formId).None? || FormOf(formId).value !in managers ==> r
      ensures FormOf(formId).Some? && FormOf(formId).value in managers ==> r == managers[FormOf(formId).value].IsValid(g)
    {
      var id := FormOf(formId);
      if id.None? || id.value !in managers then true
      else
        ManagerObjects(managers[id.value]);
        managers[id.value].IsValid(g)
    }

    /**
     * reset: the first form's manager resets the group; without forms nothing
     * happens. The validators and summaries of the other managers keep their state.
     */
    method Reset(g: string)
      requires Valid()
      modifies ValidatorObjects(), SummaryObjects()
      ensures GetForm().None? ==> unchanged(ValidatorObjects()) && unchanged(SummaryObjects())
      ensures GetForm().Some? ==>
                var m := managers[GetForm().value];
                IsValid("", g)
                && StatesOf(m.InScope(g)) == ResetAll(old(StatesOf(m.InScope(g))))
                && (forall k :: 0 <= k < |m.validators| && m.validators[k] !in m.InScope(g) ==>
                      m.validators[k].State() == old(m.validators[k].State()))
                && (forall k :: 0 <= k < |m.summaries| ==> m.summaries[k].View() == HiddenView(old(m.summaries[k].View())))
                && (forall v :: v in old(ValidatorObjects()) && v !in m.validators ==> unchanged(v))
                && (forall s :: s in old(SummaryObjects()) && s !in m.summaries ==> unchanged(s))
      ensures managers == old(managers) && forms == old(forms)
      ensures Valid()
    {
      var id := GetForm();
      if id.Some? {
        var m := managers[id.value];
        ManagerObjects(m);
        m.Reset(g);
      }
    }

    /** addValidator: the form's manager takes the validator; a form without a manager is an error. */
    method AddValidator(formId: string, v: Validator) returns (r: Result<Manager>)
      requires Valid()
      requires forall m :: m in managers.Values ==> v !in m.validators
      modifies managers.Values
      ensures formId !in managers ==> r.Failure? && unchanged(managers.Values)
      ensures formId in managers ==>
                (r == Success(managers[formId])
                 && managers[formId].validators == old(managers[formId].validators) + [v]
                 && managers[formId].summaries == old(managers[formId].summaries)
                 && managers[formId].groups ==
                      if v.options.group != "" && v.options.group !in old(managers[formId].groups)
                      then old(managers[formId].groups) + [v.options.group] else old(managers[formId].groups))
      ensures forall id :: id in managers && id != formId ==> unchanged(managers[id])
      ensures managers == old(managers) && forms == old(forms)
      ensures Valid()
    {
      if formId !in managers {
        return Failure("a validation manager for the form needs to be created first");
      }
      var m := managers[formId];
      m.AddValidator(v);
      r := Success(m);
    }

    /** addSummary: the form's manager takes the summary; a form without a manager is an error. */
    method AddSummary(formId: string, s: Summary) returns (r: Result<Manager>)
      requires Valid()
      requires forall m :: m in managers.Values ==> s !in m.summaries
      modifies managers.Values
      ensures formId !in managers ==> r.Failure? && unchanged(managers.Values)
      ensures formId in managers ==>
                (r == Success(managers[formId])
                 && managers[formId].summaries == old(managers[formId].summaries) + [s]
                 && managers[formId].validators == old(managers[formId].validators)
                 && managers[formId].groups == old(managers[formId].groups))
      ensures forall id :: id in managers && id != formId ==> unchanged(managers[id])
      ensures managers == old(managers) && forms == old(forms)
      ensures Valid()
    {
      if formId !in managers {
        return Failure("a validation manager for the form needs to be created first");
      }
      var m := managers[formId];
      m.AddSummary(s);
      r := Success(m);
    }
    /**
     * setErrorMessage: in every manager, every validator whose ID is the one
     * named takes the message; no other validator changes.
     */
    method SetErrorMessage(validatorId: string, message: string)
      requires Valid()
      modifies ValidatorObjects()
      ensures forall v :: v in old(ValidatorObjects()) && v.options.id == validatorId ==>
                v.State() == old(v.State()).(errorMessage := message)
      ensures forall v :: v in old(ValidatorObjects()) && v.options.id != validatorId ==> unchanged(v)
      ensures managers == old(managers) && forms == old(forms)
      ensures Valid()
    {
      RelabelAll(ValidatorObjects(), validatorId, message);
    }
  }
}
