/**
 Subscription rules used twice: merged into one relay filter per channel, and evaluated in order
 against each event that arrives.
 */
module Subscription {
  import opened Bytes
  import opened Seqs
  import opened Uuids

  datatype Scope = All(word: string) | List(ids: seq<string>)

  datatype Rule = Rule(
    name: string, channels: Scope, kinds: seq<nat>, requireMention: bool, hasFilter: bool, promptTag: Option<string>)

  const KIND_LIMIT: nat := 65_536

  /** An event's kind has 16 bits; the kinds a rule lists have 32, and nothing bounds them further. */
  type Kind = k: nat | k < KIND_LIMIT

  datatype Event = Event(kind: Kind, tags: seq<seq<string>>)

  /** What evaluating a filter expression can come to. */
  datatype Eval = IsTrue | IsFalse | TimedOut | Broken

  datatype Matched = Matched(ruleIndex: nat, promptTag: string)

  const MAX_CONSECUTIVE_TIMEOUTS: nat := 5

  // ---- Matching one event ----

  /** `ChannelScope::matches`: list entries are compared as text. */
  predicate ScopeMatches(scope: Scope, channel: Uuid) {
    match scope
    case All(word) => word == "all"
    case List(ids) => exists i :: 0 <= i < |ids| && ids[i] == ToText(channel)
  }

  predicate Mentions(e: Event, agent: string) {
    exists i :: 0 <= i < |e.tags| && |e.tags[i]| >= 2 && e.tags[i][0] == "p" && e.tags[i][1] == agent
  }

  /** The rule's channel, kind and mention conditions all hold. */
  predicate Applicable(rule: Rule, e: Event, channel: Uuid, agent: string) {
    && ScopeMatches(rule.channels, channel)
    && (rule.kinds == [] || e.kind in rule.kinds)
    && (rule.requireMention ==> Mentions(e, agent))
  }

  function TagOf(rule: Rule): string {
    if rule.promptTag.Some? then rule.promptTag.value else rule.name
  }

  /** A rule's counter after its filter was evaluated. */
  function Counted(count: nat, eval: Eval): nat {
    match eval
    case IsTrue => 0
    case IsFalse => 0
    case TimedOut => count + 1
    case Broken => count
  }

  /** The event at hand, with what each rule's filter would come to on it. */
  datatype Arrival = Arrival(event: Event, channel: Uuid, evals: seq<Eval>)

  /** Rules from index `i` on: the match, and the counters afterwards. */
  function MatchFrom(rules: seq<Rule>, counts: seq<nat>, a: Arrival, agent: string, i: nat): (Option<Matched>, seq<nat>)
    requires |counts| == |a.evals| == |rules| && i <= |rules|
    decreases |rules| - i
  {
    if i == |rules| then (None, counts)
    else if !Applicable(rules[i], a.event, a.channel, agent) then MatchFrom(rules, counts, a, agent, i + 1)
    else if !rules[i].hasFilter then (Some(Matched(i, TagOf(rules[i]))), counts)
    else if counts[i] >= MAX_CONSECUTIVE_TIMEOUTS then (None, counts)
    else
      var counts' := counts[i := Counted(counts[i], a.evals[i])];
      match a.evals[i]
      case IsTrue => (Some(Matched(i, TagOf(rules[i]))), counts')
      case IsFalse => MatchFrom(rules, counts', a, agent, i + 1)
      case TimedOut => (None, counts')
      case Broken => (None, counts')
  }

  /** `match_event`, with the rules' shared counters in an array. */
  method MatchEvent(rules: seq<Rule>, counters: array<nat>, a: Arrival, agent: string)
    returns (matched: Option<Matched>)
    requires counters.Length == |a.evals| == |rules|
    modifies counters
    ensures (matched, counters[..]) == MatchFrom(rules, old(counters[..]), a, agent, 0)
  {
    for i := 0 to |rules|
      invariant MatchFrom(rules, counters[..], a, agent, i) == MatchFrom(rules, old(counters[..]), a, agent, 0)
    {
      var rule := rules[i];
      if !ScopeMatches(rule.channels, a.channel) {
        continue;
      }
      if rule.kinds != [] && a.event.kind !in rule.kinds {
        continue;
      }
      if rule.requireMention && !Mentions(a.event, agent) {
        continue;
      }
      if rule.hasFilter {
        if counters[i] >= MAX_CONSECUTIVE_TIMEOUTS {
          return None;
        }
        ghost var before := counters[..];
        match a.evals[i] {
          case IsTrue =>
            counters[i] := 0;
            assert counters[..] == before[i := 0];
          case IsFalse =>
            counters[i] := 0;
            assert counters[..] == before[i := 0];
            continue;
          case TimedOut =>
            counters[i] := counters[i] + 1;
            assert counters[..] == before[i := before[i] + 1];
            return None;
          case Broken =>
            assert counters[..] == before[i := before[i]];
            return None;
        }
      }
      return Some(Matched(i, TagOf(rule)));
    }
    matched := None;
  }

  // ---- The declarative reading ----

  /** The event meets a rule: it is for all channels or lists this one's text, and asks no more than the event has. */
  predicate Meets(rule: Rule, e: Event, channel: Uuid, agent: string) {
    && (rule.channels == All("all") || (rule.channels.List? && ToText(channel) in rule.channels.ids))
    && (rule.kinds == [] || exists i :: 0 <= i < |rule.kinds| && rule.kinds[i] == e.kind)
    && (!rule.requireMention || exists tag :: tag in e.tags && |tag| >= 2 && tag[0] == "p" && tag[1] == agent)
  }

  lemma MeetsIff(rule: Rule, e: Event, channel: Uuid, agent: string)
    ensures Meets(rule, e, channel, agent) <==> Applicable(rule, e, channel, agent)
  {
    hide ToText;
    if exists tag :: tag in e.tags && |tag| >= 2 && tag[0] == "p" && tag[1] == agent {
      var tag :| tag in e.tags && |tag| >= 2 && tag[0] == "p" && tag[1] == agent;
      var i :| 0 <= i < |e.tags| && e.tags[i] == tag;
      assert Mentions(e, agent);
    }
    if Mentions(e, agent) {
      var i :| 0 <= i < |e.tags| && |e.tags[i]| >= 2 && e.tags[i][0] == "p" && e.tags[i][1] == agent;
      assert e.tags[i] in e.tags;
    }
  }

  lemma AllMeetIff(rules: seq<Rule>, a: Arrival, agent: string)
    ensures forall i :: 0 <= i < |rules| ==>
      (Meets(rules[i], a.event, a.channel, agent) <==> Applicable(rules[i], a.event, a.channel, agent))
  {
    forall i | 0 <= i < |rules|
      ensures Meets(rules[i], a.event, a.channel, agent) <==> Applicable(rules[i], a.event, a.channel, agent)
    {
      MeetsIff(rules[i], a.event, a.channel, agent);
    }
  }

  /** The rule decides for the event: it applies and its filter, if any, is true. */
  predicate Passes(rules: seq<Rule>, counts: seq<nat>, a: Arrival, agent: string, i: nat)
    requires |counts| == |a.evals| == |rules| && i < |rules|
  {
    && Meets(rules[i], a.event, a.channel, agent)
    && (rules[i].hasFilter ==> counts[i] < 5 && a.evals[i] == IsTrue)
  }

  /** The rule has no say: it does not apply, or its filter is false. */
  predicate Skipped(rules: seq<Rule>, counts: seq<nat>, a: Arrival, agent: string, i: nat)
    requires |counts| == |a.evals| == |rules| && i < |rules|
  {
    || !Meets(rules[i], a.event, a.channel, agent)
    || (rules[i].hasFilter && counts[i] < 5 && a.evals[i] == IsFalse)
  }

  /** The first rule that is not skipped is `k`. */
  ghost predicate Decides(rules: seq<Rule>, counts: seq<nat>, a: Arrival, agent: string, from: nat, k: nat)
    requires |counts| == |a.evals| == |rules|
  {
    && from <= k < |rules|
    && !Skipped(rules, counts, a, agent, k)
    && forall j :: from <= j < k ==> Skipped(rules, counts, a, agent, j)
  }

  /**
   An event matches rule `k` exactly when `k` passes and every earlier rule is skipped. So a disabled,
   timed-out or broken filter that applies stops the event there: no later rule is ever tried.
   */
  lemma {:induction false} MatchIsFirstDecidingRule(
    rules: seq<Rule>, counts: seq<nat>, a: Arrival, agent: string, i: nat, k: nat)
    requires |counts| == |a.evals| == |rules| && i <= |rules| && i <= k < |rules|
    ensures MatchFrom(rules, counts, a, agent, i).0 == Some(Matched(k, TagOf(rules[k])))
      <==> Decides(rules, counts, a, agent, i, k) && Passes(rules, counts, a, agent, k)
    decreases |rules| - i
  {
    hide Applicable, Meets;
    AllMeetIff(rules, a, agent);
    if Skipped(rules, counts, a, agent, i) {
      var counts' := if Applicable(rules[i], a.event, a.channel, agent) then counts[i := 0] else counts;
      assert MatchFrom(rules, counts, a, agent, i) == MatchFrom(rules, counts', a, agent, i + 1);
      if k == i {
        MatchIndexFrom(rules, counts', a, agent, i + 1);
      } else {
        MatchIsFirstDecidingRule(rules, counts', a, agent, i + 1, k);
        assert forall j :: i < j < |rules| ==>
          (Skipped(rules, counts', a, agent, j) <==> Skipped(rules, counts, a, agent, j));
      }
    }
  }

  lemma {:induction false} MatchIndexFrom(rules: seq<Rule>, counts: seq<nat>, a: Arrival, agent: string, i: nat)
    requires |counts| == |a.evals| == |rules| && i <= |rules|
    ensures var m := MatchFrom(rules, counts, a, agent, i).0;
      m.Some? ==>
        && i <= m.value.ruleIndex < |rules|
        && m.value == Matched(m.value.ruleIndex, TagOf(rules[m.value.ruleIndex]))
    decreases |rules| - i
  {
    hide Applicable;
    if i < |rules| {
      MatchIndexFrom(rules, counts, a, agent, i + 1);
      MatchIndexFrom(rules, counts[i := 0], a, agent, i + 1);
    }
  }

  /** The tag a rule gives its matches: its own, or else its name. */
  predicate IsTagOf(rule: Rule, tag: string) {
    rule.promptTag == Some(tag) || (rule.promptTag.None? && rule.name == tag)
  }

  /**
   So the match is rule `k` with a tag exactly when that is the rule's tag, the event meets the rule, its filter,
   if any, is enabled and true, and each earlier rule is not met or has an enabled filter that is false.
   */
  lemma MatchIff(rules: seq<Rule>, counts: seq<nat>, a: Arrival, agent: string, k: nat, tag: string)
    requires |counts| == |a.evals| == |rules|
    ensures MatchFrom(rules, counts, a, agent, 0).0 == Some(Matched(k, tag))
      <==> && k < |rules| && IsTagOf(rules[k], tag)
           && Meets(rules[k], a.event, a.channel, agent)
           && (rules[k].hasFilter ==> counts[k] < 5 && a.evals[k] == IsTrue)
           && forall j :: 0 <= j < k ==>
                !Meets(rules[j], a.event, a.channel, agent)
                || (rules[j].hasFilter && counts[j] < 5 && a.evals[j] == IsFalse)
  {
    hide Meets, MatchFrom;
    MatchIndexFrom(rules, counts, a, agent, 0);
    if k < |rules| {
      MatchIsFirstDecidingRule(rules, counts, a, agent, 0, k);
      assert IsTagOf(rules[k], tag) <==> tag == TagOf(rules[k]);
      assert forall j :: 0 <= j < k ==>
          (Skipped(rules, counts, a, agent, j)
           <==> !Meets(rules[j], a.event, a.channel, agent)
                || (rules[j].hasFilter && counts[j] < 5 && a.evals[j] == IsFalse));
    }
  }

  // ---- The timeout latch over a run ----

  /** Rule `k`'s filter is evaluated: it is reached, applies, and is not disabled. */
  ghost predicate Evaluated(rules: seq<Rule>, counts: seq<nat>, a: Arrival, agent: string, from: nat, k: nat)
    requires |counts| == |a.evals| == |rules| && k < |rules|
  {
    && from <= k
    && (forall j :: from <= j < k ==> Skipped(rules, counts, a, agent, j))
    && Meets(rules[k], a.event, a.channel, agent)
    && rules[k].hasFilter && counts[k] < 5
  }

  /** Matching an event moves exactly the counters of the filters it evaluated. */
  lemma {:induction false} MatchCounts(rules: seq<Rule>, counts: seq<nat>, a: Arrival, agent: string, i: nat, k: nat)
    requires |counts| == |a.evals| == |rules| && i <= |rules| && k < |rules|
    ensures var after := MatchFrom(rules, counts, a, agent, i).1;
      |after| == |rules|
      && after[k] == if Evaluated(rules, counts, a, agent, i, k) then Counted(counts[k], a.evals[k]) else counts[k]
    decreases |rules| - i
  {
    hide Applicable, Meets;
    AllMeetIff(rules, a, agent);
    if i < |rules| && Skipped(rules, counts, a, agent, i) {
      var counts' := if Applicable(rules[i], a.event, a.channel, agent) then counts[i := 0] else counts;
      assert MatchFrom(rules, counts, a, agent, i) == MatchFrom(rules, counts', a, agent, i + 1);
      MatchCounts(rules, counts', a, agent, i + 1, k);
      assert forall j :: i < j < |rules| ==>
        (Skipped(rules, counts', a, agent, j) <==> Skipped(rules, counts, a, agent, j));
    }
  }

  ghost predicate FitsRules(rules: seq<Rule>, arrivals: seq<Arrival>) {
    forall i :: 0 <= i < |arrivals| ==> |arrivals[i].evals| == |rules|
  }

  /** The counters after a run of events, starting from zero. */
  function CountsAfter(rules: seq<Rule>, agent: string, arrivals: seq<Arrival>): (counts: seq<nat>)
    requires forall i :: 0 <= i < |arrivals| ==> |arrivals[i].evals| == |rules|
    ensures |counts| == |rules|
  {
    if |arrivals| == 0 then seq(|rules|, _ => 0)
    else
      var before := CountsAfter(rules, agent, arrivals[..|arrivals| - 1]);
      var (m, after) := MatchFrom(rules, before, arrivals[|arrivals| - 1], agent, 0);
      if |after| == |rules| then after else before
  }

  /** The evaluations of rule `k`'s filter in a run, in order. */
  ghost function EvalsOf(rules: seq<Rule>, agent: string, arrivals: seq<Arrival>, k: nat): seq<Eval>
    requires FitsRules(rules, arrivals) && k < |rules|
  {
    if |arrivals| == 0 then []
    else
      var init, a := arrivals[..|arrivals| - 1], arrivals[|arrivals| - 1];
      EvalsOf(rules, agent, init, k)
      + if Evaluated(rules, CountsAfter(rules, agent, init), a, agent, 0, k) then [a.evals[k]] else []
  }

  /** Timeouts since the last evaluation that gave a truth value. */
  function TimeoutsSinceSuccess(evals: seq<Eval>): nat {
    if |evals| == 0 then 0
    else
      var before, last := TimeoutsSinceSuccess(evals[..|evals| - 1]), evals[|evals| - 1];
      if last == TimedOut then before + 1 else if last == Broken then before else 0
  }

  /** In every run a rule's counter is its timeouts since its filter last gave a truth value, and at most five. */
  lemma {:induction false} CounterIsTimeoutsSinceSuccess(
    rules: seq<Rule>, agent: string, arrivals: seq<Arrival>, k: nat)
    requires FitsRules(rules, arrivals) && k < |rules|
    ensures CountsAfter(rules, agent, arrivals)[k] == TimeoutsSinceSuccess(EvalsOf(rules, agent, arrivals, k))
    ensures CountsAfter(rules, agent, arrivals)[k] <= MAX_CONSECUTIVE_TIMEOUTS
  {
    hide MatchFrom, Evaluated, Counted, TimeoutsSinceSuccess;
    if |arrivals| > 0 {
      var init, a := arrivals[..|arrivals| - 1], arrivals[|arrivals| - 1];
      CounterIsTimeoutsSinceSuccess(rules, agent, init, k);
      var before := CountsAfter(rules, agent, init);
      MatchCounts(rules, before, a, agent, 0, k);
      EvaluatedIsEnabled(rules, before, a, agent, k);
      EvaluationCounts(EvalsOf(rules, agent, init, k), a.evals[k]);
    } else {
      NoTimeouts();
    }
  }

  lemma EvaluationCounts(evals: seq<Eval>, e: Eval)
    ensures TimeoutsSinceSuccess(evals + [e]) == Counted(TimeoutsSinceSuccess(evals), e)
    ensures Counted(TimeoutsSinceSuccess(evals), e) <= TimeoutsSinceSuccess(evals) + 1
    ensures evals + [] == evals
  {
    assert (evals + [e])[..|evals|] == evals;
  }

  lemma NoTimeouts()
    ensures TimeoutsSinceSuccess([]) == 0
  {
  }

  lemma EvaluatedIsEnabled(rules: seq<Rule>, counts: seq<nat>, a: Arrival, agent: string, k: nat)
    requires |counts| == |a.evals| == |rules| && k < |rules|
    ensures Evaluated(rules, counts, a, agent, 0, k) ==> counts[k] < MAX_CONSECUTIVE_TIMEOUTS
  {
  }

  /** Once a rule has five timeouts it stays disabled for the rest of the run, whatever arrives. */
  lemma {:induction false} DisabledForever(
    rules: seq<Rule>, agent: string, arrivals: seq<Arrival>, later: seq<Arrival>, k: nat)
    requires FitsRules(rules, arrivals) && FitsRules(rules, later) && k < |rules|
    requires CountsAfter(rules, agent, arrivals)[k] >= MAX_CONSECUTIVE_TIMEOUTS
    ensures FitsRules(rules, arrivals + later)
    ensures CountsAfter(rules, agent, arrivals + later)[k] == CountsAfter(rules, agent, arrivals)[k]
  {
    hide MatchFrom, Evaluated;
    if |later| == 0 {
      assert arrivals + later == arrivals;
    } else {
      var init, a := later[..|later| - 1], later[|later| - 1];
      DisabledForever(rules, agent, arrivals, init, k);
      var all := arrivals + later;
      assert all[..|all| - 1] == arrivals + init;
      var before := CountsAfter(rules, agent, arrivals + init);
      MatchCounts(rules, before, a, agent, 0, k);
      EvaluatedIsEnabled(rules, before, a, agent, k);
    }
  }

  // ---- The merged channel filter ----

  datatype ChannelFilter = ChannelFilter(kinds: Option<seq<nat>>, requireMention: bool)

  /** `rule_applies_to_channel`: list entries are parsed, so any spelling of the id counts. */
  predicate RuleAppliesToChannel(rule: Rule, channel: Uuid) {
    match rule.channels
    case All(word) => word == "all"
    case List(ids) => exists i :: 0 <= i < |ids| && Parse(ids[i]) == Some(channel)
  }

  function AddNew(kinds: seq<nat>, more: seq<nat>): (r: seq<nat>)
    ensures forall k :: k in r <==> k in kinds || k in more
    ensures Distinct(kinds) ==> Distinct(r)
  {
    if |more| == 0 then kinds
    else
      var k := more[|more| - 1];
      var before := AddNew(kinds, more[..|more| - 1]);
      assert more == more[..|more| - 1] + [k];
      if k in before then before else before + [k]
  }

  datatype Merge = Merge(kinds: Option<seq<nat>>, requireMention: bool, hasRule: bool)

  const NO_RULES: Merge := Merge(Some([]), true, false)

  function Merged(m: Merge, rule: Rule): Merge {
    Merge(
      if rule.kinds == [] || m.kinds.None? then None else Some(AddNew(m.kinds.value, rule.kinds)),
      m.requireMention && rule.requireMention,
      true)
  }

  /** The loop over the rules, in both resolvers. */
  function MergeRules(rules: seq<Rule>, channel: Uuid): Merge {
    if |rules| == 0 then NO_RULES
    else
      var before, rule := MergeRules(rules[..|rules| - 1], channel), rules[|rules| - 1];
      if RuleAppliesToChannel(rule, channel) then Merged(before, rule) else before
  }

  function ConfigFilter(rules: seq<Rule>, channel: Uuid): Option<ChannelFilter> {
    var m := MergeRules(rules, channel);
    if m.hasRule then Some(ChannelFilter(m.kinds, m.requireMention)) else None
  }

  method MergeLoop(rules: seq<Rule>, channel: Uuid) returns (filter: Option<ChannelFilter>)
    ensures filter == ConfigFilter(rules, channel)
  {
    var mergedKinds: Option<seq<nat>> := Some([]);
    var requireMention, hasRule := true, false;
    for i := 0 to |rules|
      invariant Merge(mergedKinds, requireMention, hasRule) == MergeRules(rules[..i], channel)
    {
      assert rules[..i + 1][..i] == rules[..i];
      var rule := rules[i];
      if !RuleAppliesToChannel(rule, channel) {
        continue;
      }
      hasRule := true;
      if rule.kinds == [] {
        mergedKinds := None;
      } else if mergedKinds.Some? {
        var kinds := mergedKinds.value;
        for j := 0 to |rule.kinds|
          invariant kinds == AddNew(mergedKinds.value, rule.kinds[..j])
        {
          assert rule.kinds[..j + 1][..j] == rule.kinds[..j];
          if rule.kinds[j] !in kinds {
            kinds := kinds + [rule.kinds[j]];
          }
        }
        assert rule.kinds[..|rule.kinds|] == rule.kinds;
        mergedKinds := Some(kinds);
      }
      if !rule.requireMention {
        requireMention := false;
      }
    }
    assert rules[..|rules|] == rules;
    filter := if hasRule then Some(ChannelFilter(mergedKinds, requireMention)) else None;
  }

  /**
   The merged filter asks for no kind exactly when some applying rule is a wildcard, otherwise for
   exactly the kinds of the applying rules, and for a mention exactly when they all do.
   */
  lemma {:induction false} MergeIsUnion(rules: seq<Rule>, channel: Uuid)
    ensures var m := MergeRules(rules, channel);
      && (m.hasRule <==> exists i :: AppliesAt(rules, channel, i))
      && (m.kinds.None? <==> exists i :: AppliesAt(rules, channel, i) && rules[i].kinds == [])
      && (m.kinds.Some? ==>
            && Distinct(m.kinds.value)
            && forall k :: k in m.kinds.value <==> exists i :: AppliesAt(rules, channel, i) && k in rules[i].kinds)
      && (m.requireMention <==> forall i :: AppliesAt(rules, channel, i) ==> rules[i].requireMention)
  {
    if |rules| > 0 {
      var n := |rules| - 1;
      var init, rule := rules[..n], rules[n];
      MergeIsUnion(init, channel);
      assert forall i :: 0 <= i < n ==>
          (AppliesAt(rules, channel, i) <==> AppliesAt(init, channel, i)) && rules[i] == init[i];
      assert forall i :: AppliesAt(rules, channel, i) ==> i == n || AppliesAt(init, channel, i);
      assert AppliesAt(rules, channel, n) <==> RuleAppliesToChannel(rule, channel);
    }
  }

  /** Rule `i` names the channel: it is for all, or one of its texts reads as this id. */
  predicate AppliesAt(rules: seq<Rule>, channel: Uuid, i: int) {
    && 0 <= i < |rules|
    && (|| rules[i].channels == All("all")
        || (rules[i].channels.List? && exists id :: id in rules[i].channels.ids && Parse(id) == Some(channel)))
  }

  predicate Admits(f: ChannelFilter, e: Event, agent: string) {
    && (f.kinds.Some? ==> e.kind in f.kinds.value)
    && (f.requireMention ==> Mentions(e, agent))
  }

  /** Every event a rule can match on a channel was asked for by that channel's merged filter. */
  lemma MatchedEventsAreAdmitted(rules: seq<Rule>, counts: seq<nat>, a: Arrival, agent: string)
    requires |counts| == |a.evals| == |rules|
    requires MatchFrom(rules, counts, a, agent, 0).0.Some?
    ensures ConfigFilter(rules, a.channel).Some?
    ensures Admits(ConfigFilter(rules, a.channel).value, a.event, agent)
  {
    hide MatchFrom, ToText, Parse;
    MatchIndexFrom(rules, counts, a, agent, 0);
    var k := MatchFrom(rules, counts, a, agent, 0).0.value.ruleIndex;
    MatchIsFirstDecidingRule(rules, counts, a, agent, 0, k);
    assert Passes(rules, counts, a, agent, k);
    ScopeMeaning(rules[k], a.channel);
    assert AppliesAt(rules, a.channel, k);
    MergeIsUnion(rules, a.channel);
  }

  // ---- Channels that are subscribed for nothing ----

  /** No event on the channel matches any rule, whatever the counters and the filters' values. */
  ghost predicate NeverMatches(rules: seq<Rule>, channel: Uuid, agent: string) {
    forall counts: seq<nat>, a: Arrival ::
      |counts| == |a.evals| == |rules| && a.channel == channel ==> MatchFrom(rules, counts, a, agent, 0).0.None?
  }

  /** The rule lists channels, and not this one under the text that is written for it. */
  predicate IsRespelled(rule: Rule, channel: Uuid) {
    rule.channels.List? && ToText(channel) !in rule.channels.ids
  }

  /** The rule lists kinds, and none that an event can have. */
  predicate ListsNoKind(rule: Rule) {
    rule.kinds != [] && forall i :: 0 <= i < |rule.kinds| ==> rule.kinds[i] >= KIND_LIMIT
  }

  /** The rule can match nothing on the channel. */
  predicate IsMute(rule: Rule, channel: Uuid) {
    IsRespelled(rule, channel) || ListsNoKind(rule)
  }

  /**
   A channel is subscribed although no event on it can ever match, whatever the filters come to, exactly
   when some rule names it and every rule that does so either only has other spellings of its id (upper
   case, without hyphens, in braces) or lists kinds of which none fits into 16 bits.
   */
  lemma SubscribedButNeverMatchedIff(rules: seq<Rule>, channel: Uuid, agent: string)
    ensures ConfigFilter(rules, channel).Some? && NeverMatches(rules, channel, agent)
      <==> (exists i :: AppliesAt(rules, channel, i))
           && forall i :: AppliesAt(rules, channel, i) ==> IsMute(rules[i], channel)
  {
    hide MatchFrom, Parse, ToText, MergeRules;
    MergeIsUnion(rules, channel);
    if forall i :: AppliesAt(rules, channel, i) ==> IsMute(rules[i], channel) {
      forall counts: seq<nat>, a: Arrival | |counts| == |a.evals| == |rules| && a.channel == channel
        ensures MatchFrom(rules, counts, a, agent, 0).0.None?
      {
        MuteRulesDoNotMatch(rules, counts, a, agent);
      }
    } else {
      var k :| AppliesAt(rules, channel, k) && !IsMute(rules[k], channel);
      var counts := seq(|rules|, _ => 0);
      var event := AskedFor(rules[k], agent);
      var a := Arrival(event, channel, seq(|rules|, _ => IsTrue));
      ScopeMeaning(rules[k], channel);
      SomeRuleMatches(rules, counts, a, agent, 0, k);
    }
  }

  /** An event that meets the rule's conditions on kind and mention. */
  lemma AskedFor(rule: Rule, agent: string) returns (event: Event)
    requires !ListsNoKind(rule)
    ensures rule.kinds == [] || event.kind in rule.kinds
    ensures Mentions(event, agent)
  {
    var kind: Kind := 0;
    if rule.kinds != [] {
      var i :| 0 <= i < |rule.kinds| && rule.kinds[i] < KIND_LIMIT;
      kind := rule.kinds[i];
    }
    event := Event(kind, [["p", agent]]);
    assert event.tags[0] == ["p", agent];
  }

  /** A rule that matches on a channel applies to it, and lists it as it is written if it lists any. */
  lemma ScopeMeaning(rule: Rule, channel: Uuid)
    ensures ScopeMatches(rule.channels, channel) <==> RuleAppliesToChannel(rule, channel) && !IsRespelled(rule, channel)
  {
    TextRoundTrip(channel);
  }

  lemma MuteRulesDoNotMatch(rules: seq<Rule>, counts: seq<nat>, a: Arrival, agent: string)
    requires |counts| == |a.evals| == |rules|
    requires forall i :: AppliesAt(rules, a.channel, i) ==> IsMute(rules[i], a.channel)
    ensures MatchFrom(rules, counts, a, agent, 0).0.None?
  {
    hide MatchFrom, Parse, ToText;
    MatchIndexFrom(rules, counts, a, agent, 0);
    if MatchFrom(rules, counts, a, agent, 0).0.Some? {
      var k := MatchFrom(rules, counts, a, agent, 0).0.value.ruleIndex;
      MatchIsFirstDecidingRule(rules, counts, a, agent, 0, k);
      ScopeMeaning(rules[k], a.channel);
    }
  }

  /** With every filter true and none disabled, one applicable rule is enough for a match. */
  lemma {:induction false} SomeRuleMatches(
    rules: seq<Rule>, counts: seq<nat>, a: Arrival, agent: string, i: nat, k: nat)
    requires |counts| == |a.evals| == |rules| && i <= k < |rules|
    requires forall j :: 0 <= j < |rules| ==> counts[j] == 0 && a.evals[j] == IsTrue
    requires Applicable(rules[k], a.event, a.channel, agent)
    ensures MatchFrom(rules, counts, a, agent, i).0.Some?
    decreases k - i
  {
    hide Applicable;
    if !Applicable(rules[i], a.event, a.channel, agent) {
      SomeRuleMatches(rules, counts, a, agent, i + 1, k);
    }
  }

  /** Every channel has such a spelling: listed by its digits alone, it is subscribed and never matched. */
  lemma RespelledChannelIsNeverMatched(channel: Uuid, agent: string)
    ensures var rules := [Rule("deploys", List([SimpleText(channel)]), [], false, false, None)];
      ConfigFilter(rules, channel) == Some(ChannelFilter(None, false)) && NeverMatches(rules, channel, agent)
  {
    hide Parse, ToText, SimpleText, MatchFrom;
    var rules := [Rule("deploys", List([SimpleText(channel)]), [], false, false, None)];
    TextRoundTrip(channel);
    assert RuleAppliesToChannel(rules[0], channel) by { assert rules[0].channels.ids[0] == SimpleText(channel); }
    assert AppliesAt(rules, channel, 0);
    MergeIsUnion(rules, channel);
    SubscribedButNeverMatchedIff(rules, channel, agent);
  }

  /** A rule for all channels that only lists a kind above 65535 subscribes every channel to nothing. */
  lemma OversizedKindIsNeverMatched(channel: Uuid, agent: string, kind: nat)
    requires kind >= KIND_LIMIT
    ensures var rules := [Rule("large", All("all"), [kind], false, false, None)];
      ConfigFilter(rules, channel) == Some(ChannelFilter(Some([kind]), false)) && NeverMatches(rules, channel, agent)
  {
    hide MatchFrom;
    var rules := [Rule("large", All("all"), [kind], false, false, None)];
    assert AppliesAt(rules, channel, 0);
    assert AddNew([], [kind]) == [kind] by { assert [kind][..0] == []; }
    assert rules[..0] == [] && MergeRules([], channel) == NO_RULES;
    assert MergeRules(rules, channel) == Merge(Some([kind]), false, true);
    SubscribedButNeverMatchedIff(rules, channel, agent);
  }

  // ---- The two resolvers ----

  datatype Mode = MentionsMode | AllMode | ConfigMode

  datatype Config = Config(
    mode: Mode, channelsOverride: Option<seq<string>>, kindsOverride: Option<seq<nat>>, noMentionFilter: bool)

  const DEFAULT_KINDS: seq<nat> := [9, 46010, 40007]

  /** The filter of every target channel outside Config mode. */
  function PlainFilter(config: Config): ChannelFilter {
    if config.mode == AllMode then ChannelFilter(config.kindsOverride, false)
    else
      ChannelFilter(Some(if config.kindsOverride.Some? then config.kindsOverride.value else DEFAULT_KINDS),
                    !config.noMentionFilter)
  }

  predicate Listed(ids: seq<string>, channel: Uuid) {
    exists i :: 0 <= i < |ids| && Parse(ids[i]) == Some(channel)
  }

  lemma ListedIff(ids: seq<string>, channel: Uuid)
    ensures Listed(ids, channel) <==> exists id :: id in ids && Parse(id) == Some(channel)
  {
    hide Parse;
    if exists id :: id in ids && Parse(id) == Some(channel) {
      var id :| id in ids && Parse(id) == Some(channel);
      var j :| 0 <= j < |ids| && ids[j] == id;
    }
    if Listed(ids, channel) {
      var j :| 0 <= j < |ids| && Parse(ids[j]) == Some(channel);
      assert ids[j] in ids;
    }
  }

  /** `resolve_dynamic_channel_filter`. */
  method ResolveDynamic(config: Config, channel: Uuid, rules: seq<Rule>) returns (filter: Option<ChannelFilter>)
    ensures filter == Resolved(config, channel, rules)
    ensures config.mode == ConfigMode ==> filter == ConfigFilter(rules, channel)
    ensures config.mode != ConfigMode ==>
      (filter.Some?
       <==> config.channelsOverride.None?
            || exists id :: id in config.channelsOverride.value && Parse(id) == Some(channel))
    ensures config.mode == AllMode && filter.Some? ==> filter.value == ChannelFilter(config.kindsOverride, false)
    ensures config.mode == MentionsMode && filter.Some? ==>
      && filter.value.requireMention == !config.noMentionFilter
      && filter.value.kinds
         == if config.kindsOverride.Some? then config.kindsOverride else Some([9, 46010, 40007])
  {
    if config.channelsOverride.Some? {
      ListedIff(config.channelsOverride.value, channel);
    }
    if config.mode != ConfigMode && config.channelsOverride.Some? && !Listed(config.channelsOverride.value, channel) {
      return None;
    }
    if config.mode == ConfigMode {
      filter := MergeLoop(rules, channel);
    } else {
      filter := Some(PlainFilter(config));
    }
  }

  /** The filter a channel gets, if any. */
  function Resolved(config: Config, channel: Uuid, rules: seq<Rule>): Option<ChannelFilter> {
    if config.mode == ConfigMode then ConfigFilter(rules, channel)
    else if config.channelsOverride.Some? && !Listed(config.channelsOverride.value, channel) then None
    else Some(PlainFilter(config))
  }

  /**
   `resolve_channel_filters`. It agrees with the single-channel resolver on every discovered channel,
   and has nothing for any other.
   */
  method ResolveAll(config: Config, discovered: seq<Uuid>, rules: seq<Rule>) returns (result: map<Uuid, ChannelFilter>)
    ensures forall ch :: ch in result <==> ch in discovered && Resolved(config, ch, rules).Some?
    ensures forall ch :: ch in result ==> result[ch] == Resolved(config, ch, rules).value
  {
    result := map[];
    if config.mode == ConfigMode {
      for i := 0 to |discovered|
        invariant forall ch :: ch in result <==> ch in discovered[..i] && Resolved(config, ch, rules).Some?
        invariant forall ch :: ch in result ==> result[ch] == Resolved(config, ch, rules).value
      {
        var filter := MergeLoop(rules, discovered[i]);
        if filter.Some? {
          result := result[discovered[i] := filter.value];
        }
      }
      return;
    }
    var targets := TargetChannels(config, discovered);
    for i := 0 to |targets|
      invariant forall ch :: ch in result <==> ch in targets[..i]
      invariant forall ch :: ch in result ==> result[ch] == PlainFilter(config)
    {
      result := result[targets[i] := PlainFilter(config)];
    }
  }

  method TargetChannels(config: Config, discovered: seq<Uuid>) returns (targets: seq<Uuid>)
    ensures forall ch :: ch in targets <==>
      ch in discovered && (config.channelsOverride.Some? ==> Listed(config.channelsOverride.value, ch))
  {
    if config.channelsOverride.None? {
      return discovered;
    }
    var ids := config.channelsOverride.value;
    targets := [];
    for i := 0 to |ids|
      invariant forall ch :: ch in targets <==> ch in discovered && Listed(ids[..i], ch)
    {
      ListedPush(ids, i);
      if Parse(ids[i]).Some? && Parse(ids[i]).value in discovered {
        targets := targets + [Parse(ids[i]).value];
      }
    }
    assert ids[..|ids|] == ids;
  }

  lemma ListedPush(ids: seq<string>, i: nat)
    requires i < |ids|
    ensures forall ch: Uuid :: Listed(ids[..i + 1], ch) <==> Listed(ids[..i], ch) || Parse(ids[i]) == Some(ch)
  {
    forall ch: Uuid ensures Listed(ids[..i + 1], ch) <==> Listed(ids[..i], ch) || Parse(ids[i]) == Some(ch) {
      assert forall j :: 0 <= j < i ==> ids[..i + 1][j] == ids[..i][j];
      assert ids[..i + 1][i] == ids[i];
    }
  }
}
