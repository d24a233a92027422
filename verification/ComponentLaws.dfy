/** How the outcome of resolution depends on list order and on the stored choices. */
module ComponentLaws {
  import opened Wrappers
  import opened Ordering
  import opened ComponentGraph
  import opened ComponentResolver

  lemma UniqueIdsGiveExactGraph(components: seq<Component>)
    requires UniqueIds(components)
    ensures forall c :: c in components ==> c.id in ById(components) && ById(components)[c.id] == c
  {
    ByIdIsLast(components);
  }

  lemma SameComponentsSameGraph(cs: seq<Component>, ds: seq<Component>)
    requires UniqueIds(cs) && UniqueIds(ds) && forall c :: c in cs <==> c in ds
    ensures ById(cs) == ById(ds)
  {
    ByIdIsLast(cs);
    ByIdIsLast(ds);
    UniqueIdsGiveExactGraph(cs);
    UniqueIdsGiveExactGraph(ds);
    forall x ensures x in ById(cs) <==> x in ById(ds) {}
    forall x | x in ById(cs) ensures ById(cs)[x] == ById(ds)[x] {
      var c := ById(cs)[x];
      assert c in ds;
    }
  }

  lemma StatusIgnoresListOrder(cs: seq<Component>, ds: seq<Component>, choices: map<Id, bool>, enabled: set<Id>)
    requires UniqueIds(cs) && UniqueIds(ds) && ById(cs) == ById(ds)
    ensures forall i, j :: 0 <= i < |cs| && 0 <= j < |ds| && cs[i] == ds[j] ==>
              StatusList(cs, choices, enabled)[i] == StatusList(ds, choices, enabled)[j]
  {
    forall i, j | 0 <= i < |cs| && 0 <= j < |ds| && cs[i] == ds[j]
      ensures StatusAt(cs, choices, enabled, i) == StatusAt(ds, choices, enabled, j)
    {
      assert !Listed(cs, i, cs[i].id) && !Listed(ds, j, ds[j].id);
    }
  }

  /** With unique identifiers the list order changes nothing but the order of the status lines. */
  lemma OutcomeIgnoresListOrder(cs: seq<Component>, ds: seq<Component>, choices: map<Id, bool>)
    requires UniqueIds(cs) && UniqueIds(ds) && forall c :: c in cs <==> c in ds
    ensures Resolved(cs, choices).Failure? ==> Resolved(ds, choices) == Resolved(cs, choices)
    ensures Resolved(cs, choices).Success? ==>
      && Resolved(ds, choices).Success?
      && Resolved(ds, choices).value.enabled == Resolved(cs, choices).value.enabled
      && forall i, j :: 0 <= i < |cs| && 0 <= j < |ds| && cs[i] == ds[j] ==>
           Resolved(cs, choices).value.statuses[i] == Resolved(ds, choices).value.statuses[j]
  {
    SameComponentsSameGraph(cs, ds);
    assert Seeds(cs, choices) == Seeds(ds, choices);
    if Resolved(cs, choices).Success? {
      StatusIgnoresListOrder(cs, ds, choices, Resolved(cs, choices).value.enabled);
    }
  }

  /** Choosing more never disables anything. */
  lemma EnabledIsMonotone(components: seq<Component>, fewer: map<Id, bool>, more: map<Id, bool>)
    requires Resolved(components, fewer).Success? && Resolved(components, more).Success?
    requires forall c :: c in components && Chosen(c, fewer) ==> Chosen(c, more)
    ensures Resolved(components, fewer).value.enabled <= Resolved(components, more).value.enabled
  {
    ResolutionIsLeast(components, more, {});
    ResolutionIsLeast(components, fewer, Resolved(components, more).value.enabled);
  }

  // ---- storing the defaults

  /** Choices after every optional component without one has taken its default. */
  function WithDefaults(components: seq<Component>, choices: map<Id, bool>): map<Id, bool> {
    if components == [] then choices
    else
      var before := WithDefaults(components[..|components| - 1], choices);
      var c := components[|components| - 1];
      if !c.required && c.id !in before then before[c.id := c.defaultEnabled] else before
  }

  class ComponentSelections {
    var choices: map<Id, bool>

    constructor (initial: map<Id, bool>)
      ensures choices == initial
    {
      choices := initial;
    }

    /** `initialize_selections`. */
    method Initialize(components: seq<Component>)
      modifies this
      ensures choices == WithDefaults(components, old(choices))
    {
      for i := 0 to |components|
        invariant choices == WithDefaults(components[..i], old(choices))
      {
        var c := components[i];
        assert components[..i + 1][..i] == components[..i];
        if !c.required && c.id !in choices {
          choices := choices[c.id := c.defaultEnabled];
        }
      }
      assert components[..|components|] == components;
    }
  }

  /** Entry `i` is the first optional one called `x`, and its default is `on`. */
  ghost predicate DecidesDefault(components: seq<Component>, i: int, x: Id, on: bool) {
    && 0 <= i < |components|
    && !components[i].required && components[i].id == x && components[i].defaultEnabled == on
    && (forall j :: 0 <= j < i && components[j].id == x ==> components[j].required)
  }

  /** Local choices survive; exactly the optional components get an entry, the first of each identifier deciding. */
  lemma {:induction false} DefaultsFillGaps(components: seq<Component>, choices: map<Id, bool>)
    ensures
      var after := WithDefaults(components, choices);
      && (forall x :: x in choices ==> x in after && after[x] == choices[x])
      && (forall x :: x in after <==> x in choices || exists c :: c in components && !c.required && c.id == x)
      && (forall x :: x in after && x !in choices ==> exists i :: DecidesDefault(components, i, x, after[x]))
  {
    if components != [] {
      var front, c := components[..|components| - 1], components[|components| - 1];
      DefaultsFillGaps(front, choices);
      assert components == front + [c];
      var before, after := WithDefaults(front, choices), WithDefaults(components, choices);
      forall x | x in after && x !in choices
        ensures exists i :: DecidesDefault(components, i, x, after[x])
      {
        if x in before {
          var i :| DecidesDefault(front, i, x, before[x]);
          assert DecidesDefault(components, i, x, after[x]);
        } else {
          assert forall d :: d in front && d.id == x ==> d.required;
          assert forall j :: 0 <= j < |front| ==> components[j] in front;
          assert DecidesDefault(components, |front|, x, after[x]);
        }
      }
    }
  }

  lemma DefaultsDoNotChangeChoices(components: seq<Component>, choices: map<Id, bool>)
    requires UniqueIds(components)
    ensures forall c :: c in components ==> Chosen(c, WithDefaults(components, choices)) == Chosen(c, choices)
  {
    var after := WithDefaults(components, choices);
    DefaultsFillGaps(components, choices);
    forall c | c in components ensures Chosen(c, after) == Chosen(c, choices) {
      if !c.required && c.id !in choices {
        var i :| DecidesDefault(components, i, c.id, after[c.id]);
        assert components[i] == c;
      }
    }
  }

  lemma SameChoicesSameOutcome(components: seq<Component>, a: map<Id, bool>, b: map<Id, bool>)
    requires forall c :: c in components ==> Chosen(c, a) == Chosen(c, b)
    ensures Resolved(components, a) == Resolved(components, b)
  {
    assert Seeds(components, a) == Seeds(components, b);
    forall enabled ensures StatusList(components, a, enabled) == StatusList(components, b, enabled) {
      assert forall i :: 0 <= i < |components| ==> StatusAt(components, a, enabled, i) == StatusAt(components, b, enabled, i);
    }
  }

  /** With unique identifiers, storing the defaults first leaves the outcome as it was. */
  lemma InitializationIsInvisible(components: seq<Component>, choices: map<Id, bool>)
    requires UniqueIds(components)
    ensures Resolved(components, WithDefaults(components, choices)) == Resolved(components, choices)
  {
    DefaultsDoNotChangeChoices(components, choices);
    SameChoicesSameOutcome(components, WithDefaults(components, choices), choices);
  }

  // ---- without unique identifiers

  /** Every optional entry without a local choice has the default of the first optional entry of its identifier. */
  ghost predicate DefaultsAgree(components: seq<Component>, choices: map<Id, bool>) {
    forall c, i, on :: c in components && !c.required && c.id !in choices && DecidesDefault(components, i, c.id, on) ==> c.defaultEnabled == on
  }

  lemma AgreeingDefaultsAreChoices(components: seq<Component>, choices: map<Id, bool>)
    ensures DefaultsAgree(components, choices) <==>
            forall c :: c in components ==> Chosen(c, WithDefaults(components, choices)) == Chosen(c, choices)
  {
    var after := WithDefaults(components, choices);
    DefaultsFillGaps(components, choices);
    if DefaultsAgree(components, choices) {
      forall c | c in components ensures Chosen(c, after) == Chosen(c, choices) {
        if !c.required && c.id !in choices {
          var i :| DecidesDefault(components, i, c.id, after[c.id]);
        }
      }
    }
    if forall c :: c in components ==> Chosen(c, after) == Chosen(c, choices) {
      forall c, i, on | c in components && !c.required && c.id !in choices && DecidesDefault(components, i, c.id, on) ensures c.defaultEnabled == on {
        var j :| DecidesDefault(components, j, c.id, after[c.id]);
        FirstDecides(components, i, j, c.id, on, after[c.id]);
      }
    }
  }

  lemma FirstDecides(components: seq<Component>, i: int, j: int, x: Id, a: bool, b: bool)
    requires DecidesDefault(components, i, x, a) && DecidesDefault(components, j, x, b)
    ensures a == b
  {
  }

  lemma SameOutcomeSameChoices(components: seq<Component>, a: map<Id, bool>, b: map<Id, bool>)
    requires Resolved(components, a).Success? && Resolved(components, b) == Resolved(components, a)
    ensures forall c :: c in components ==> Chosen(c, a) == Chosen(c, b)
  {
    forall c | c in components ensures Chosen(c, a) == Chosen(c, b) {
      var k :| 0 <= k < |components| && components[k] == c;
      assert Resolved(components, a).value.statuses[k].selected == Chosen(c, a);
      assert Resolved(components, b).value.statuses[k].selected == Chosen(c, b);
    }
  }

  /** For any list, repeated identifiers included: storing the defaults leaves a successful resolution as it was exactly when they agree. */
  lemma InitializationIsInvisibleIff(components: seq<Component>, choices: map<Id, bool>)
    requires Resolved(components, choices).Success?
    ensures Resolved(components, WithDefaults(components, choices)) == Resolved(components, choices) <==> DefaultsAgree(components, choices)
  {
    var after := WithDefaults(components, choices);
    AgreeingDefaultsAreChoices(components, choices);
    if DefaultsAgree(components, choices) {
      SameChoicesSameOutcome(components, after, choices);
    }
    if Resolved(components, after) == Resolved(components, choices) {
      SameOutcomeSameChoices(components, choices, after);
    }
  }

  /** Of two entries for one identifier the first default is stored, so a differing second one is overruled. */
  lemma RepeatedIdsBreakInitialization(off: Component, on: Component)
    requires off.id == on.id && !off.required && !on.required && !off.defaultEnabled && on.defaultEnabled
    requires Resolved([off, on], map[]).Success?
    ensures Resolved([off, on], WithDefaults([off, on], map[])) != Resolved([off, on], map[])
  {
    var components := [off, on];
    InitializationIsInvisibleIff(components, map[]);
    assert on in components && DecidesDefault(components, 0, on.id, false);
  }
}
