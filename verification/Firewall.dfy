/** The egress policy a relay re-asserts on every poll, on chains anyone may edit. */
module Firewall {
  import opened Sorting

  datatype RelayState = RelayState(innerSubnet: string, wan: string, port: string, setName: string,
                                   rateLimit: string, rateBurst: string)

  /** A rule, the chain it belongs to, and whether it goes in at the top. */
  datatype Rule = Rule(table: string, chain: string, body: seq<string>, atTop: bool)

  type ChainName = (string, string)
  type Chain = seq<seq<string>>

  /** The FORWARD policy and the chains; a chain never touched is empty. */
  datatype Tables = Tables(dropByDefault: bool, chains: map<ChainName, Chain>)

  function ChainOf(t: Tables, c: ChainName): Chain {
    if c in t.chains then t.chains[c] else []
  }

  function Cap(st: RelayState, dir: string, mode: string, name: string): Rule {
    Rule("filter", "FORWARD",
         [dir, st.innerSubnet, "-m", "hashlimit", "--hashlimit-above", st.rateLimit, "--hashlimit-burst", st.rateBurst,
          "--hashlimit-mode", mode, "--hashlimit-name", name, "--hashlimit-htable-expire", "60000", "-j", "DROP"],
         true)
  }

  function FirewallRules(st: RelayState): seq<Rule> {
    [Cap(st, "-s", "srcip", "gnl-up"),
     Cap(st, "-d", "dstip", "gnl-down"),
     Rule("filter", "FORWARD", ["-s", st.innerSubnet, "-m", "set", "--match-set", st.setName, "dst", "-j", "ACCEPT"], false),
     Rule("filter", "FORWARD", ["-d", st.innerSubnet, "-m", "conntrack", "--ctstate", "RELATED,ESTABLISHED", "-j", "ACCEPT"], false),
     Rule("nat", "POSTROUTING", ["-s", st.innerSubnet, "-o", st.wan, "-j", "MASQUERADE"], false),
     Rule("mangle", "FORWARD", ["-p", "tcp", "--tcp-flags", "SYN,RST", "SYN", "-j", "TCPMSS", "--clamp-mss-to-pmtu"], false),
     Rule("filter", "INPUT", ["-p", "udp", "--dport", st.port, "-j", "ACCEPT"], false)]
  }

  /** iptables itself: `-C` finds a rule in a chain, unless the call itself fails; any
      other command fails or takes effect. */
  class Iptables {
    var tables: Tables
    var calls: nat
    const faults: nat -> bool

    constructor (tables: Tables, faults: nat -> bool)
      ensures this.tables == tables && this.faults == faults && calls == 0
    {
      this.tables, this.faults, calls := tables, faults, 0;
    }

    method SetPolicy() returns (ok: bool)
      modifies this
      ensures calls == old(calls) + 1 && ok == !faults(old(calls))
      ensures tables == if ok then old(tables).(dropByDefault := true) else old(tables)
    {
      ok := !faults(calls);
      calls := calls + 1;
      if ok { tables := tables.(dropByDefault := true); }
    }

    method Check(r: Rule) returns (found: bool)
      modifies this
      ensures calls == old(calls) + 1 && tables == old(tables)
      ensures found == (!faults(old(calls)) && r.body in ChainOf(tables, (r.table, r.chain)))
    {
      found := !faults(calls) && r.body in ChainOf(tables, (r.table, r.chain));
      calls := calls + 1;
    }

    method Add(r: Rule) returns (ok: bool)
      modifies this
      ensures calls == old(calls) + 1 && ok == !faults(old(calls))
      ensures tables == if ok then WithRule(old(tables), r) else old(tables)
    {
      ok := !faults(calls);
      calls := calls + 1;
      if ok {
        var c := ChainOf(tables, (r.table, r.chain));
        tables := tables.(chains := tables.chains[(r.table, r.chain) := if r.atTop then [r.body] + c else c + [r.body]]);
      }
    }

    /** Puts the FORWARD policy back to DROP and re-adds any missing rule. */
    method ReassertFirewall(st: RelayState) returns (ok: bool)
      modifies this
      ensures Reasserted(old(tables), FirewallRules(st), faults, old(calls)) == Ran(tables, ok, calls)
    {
      hide FirewallRules;
      ok := SetPolicy();
      if !ok { return; }
      var rules := FirewallRules(st);
      ghost var t0, c0 := tables, calls;
      for i := 0 to |rules|
        invariant Asserted(t0, rules, faults, c0) == Asserted(tables, rules[i..], faults, calls)
      {
        assert rules[i..][0] == rules[i] && rules[i..][1..] == rules[i + 1..];
        var found := Check(rules[i]);
        if !found {
          ok := Add(rules[i]);
          if !ok { return; }
        }
      }
      ok := true;
    }
  }

  // ----- what it computes

  function WithRule(t: Tables, r: Rule): Tables {
    var (name, c) := ((r.table, r.chain), ChainOf(t, (r.table, r.chain)));
    t.(chains := t.chains[name := if r.atTop then [r.body] + c else c + [r.body]])
  }

  datatype Ran = Ran(tables: Tables, ok: bool, calls: nat)

  predicate Present(t: Tables, r: Rule) {
    r.body in ChainOf(t, (r.table, r.chain))
  }

  /** Checks each rule in turn and adds those not found, stopping when an addition fails. */
  ghost function Asserted(t: Tables, rules: seq<Rule>, faults: nat -> bool, at: nat): Ran
    decreases |rules|
  {
    if rules == [] then Ran(t, true, at)
    else if !faults(at) && Present(t, rules[0]) then Asserted(t, rules[1..], faults, at + 1)
    else if faults(at + 1) then Ran(t, false, at + 2)
    else Asserted(WithRule(t, rules[0]), rules[1..], faults, at + 2)
  }

  ghost function Reasserted(t: Tables, rules: seq<Rule>, faults: nat -> bool, at: nat): Ran {
    if faults(at) then Ran(t, false, at + 1)
    else Asserted(t.(dropByDefault := true), rules, faults, at + 1)
  }

  // ----- the managed rules

  ghost predicate Managed(rules: seq<Rule>, c: ChainName, body: seq<string>) {
    exists i :: 0 <= i < |rules| && (rules[i].table, rules[i].chain) == c && rules[i].body == body
  }

  ghost predicate IsCap(rules: seq<Rule>, c: ChainName, body: seq<string>) {
    exists i :: 0 <= i < |rules| && (rules[i].table, rules[i].chain) == c && rules[i].body == body && rules[i].atTop
  }

  ghost predicate IsPermit(rules: seq<Rule>, c: ChainName, body: seq<string>) {
    exists i :: 0 <= i < |rules| && (rules[i].table, rules[i].chain) == c && rules[i].body == body && !rules[i].atTop
  }

  /** No two managed rules are the same rule of the same chain. */
  predicate Different(rules: seq<Rule>) {
    forall i, j :: 0 <= i < j < |rules| ==>
      (rules[i].table, rules[i].chain, rules[i].body) != (rules[j].table, rules[j].chain, rules[j].body)
  }

  lemma RulesAreDifferent(st: RelayState)
    ensures Different(FirewallRules(st))
  {
    var rules := FirewallRules(st);
    assert |rules| == 7;
    assert rules[0].body[0] != rules[1].body[0] && rules[2].body[0] != rules[3].body[0];
    assert rules[0].body[3] != rules[2].body[3] && rules[1].body[3] != rules[3].body[3];
    assert rules[0].body[0] != rules[3].body[0] && rules[1].body[0] != rules[2].body[0];
  }

  /** Each managed cap of the chain stands above each managed permission. */
  ghost predicate ChainCapsFirst(ch: Chain, rules: seq<Rule>, c: ChainName) {
    forall i, j :: 0 <= i < |ch| && 0 <= j < |ch| && IsCap(rules, c, ch[i]) && IsPermit(rules, c, ch[j]) ==> i < j
  }

  ghost predicate CapsFirst(t: Tables, rules: seq<Rule>) {
    forall c :: ChainCapsFirst(ChainOf(t, c), rules, c)
  }

  ghost predicate NoRepeats(t: Tables, rules: seq<Rule>) {
    forall c, body :: Managed(rules, c, body) ==> multiset(ChainOf(t, c))[body] <= 1
  }

  /** A chain without its managed rules. */
  ghost function Foreign(ch: Chain, rules: seq<Rule>, c: ChainName): Chain {
    if ch == [] then []
    else Foreign(ch[..|ch| - 1], rules, c) + if Managed(rules, c, ch[|ch| - 1]) then [] else [ch[|ch| - 1]]
  }

  lemma {:induction false} ForeignConcat(a: Chain, b: Chain, rules: seq<Rule>, c: ChainName)
    ensures Foreign(a + b, rules, c) == Foreign(a, rules, c) + Foreign(b, rules, c)
    decreases |b|
  {
    hide Managed;
    if b == [] {
      assert a + b == a;
    } else {
      var front, x := b[..|b| - 1], b[|b| - 1];
      assert (a + b)[..|a + b| - 1] == a + front;
      ForeignConcat(a, front, rules, c);
    }
  }

  lemma AddedKeepsOrder(ch: Chain, rules: seq<Rule>, c: ChainName, body: seq<string>)
    requires ChainCapsFirst(ch, rules, c)
    ensures !IsPermit(rules, c, body) ==> ChainCapsFirst([body] + ch, rules, c)
    ensures !IsCap(rules, c, body) ==> ChainCapsFirst(ch + [body], rules, c)
  {
    hide IsCap, IsPermit;
  }

  lemma AddedKeepsForeign(ch: Chain, rules: seq<Rule>, c: ChainName, body: seq<string>)
    requires Managed(rules, c, body)
    ensures Foreign([body] + ch, rules, c) == Foreign(ch, rules, c) == Foreign(ch + [body], rules, c)
  {
    hide Managed;
    ForeignConcat([body], ch, rules, c);
    ForeignConcat(ch, [body], rules, c);
    assert [body][..0] == [];
  }

  /** Adding a missing managed rule keeps caps first and foreign rules where they are. */
  lemma WithRuleKeeps(t: Tables, rules: seq<Rule>, k: nat)
    requires k < |rules| && CapsFirst(t, rules) && Different(rules)
    ensures CapsFirst(WithRule(t, rules[k]), rules)
    ensures forall c :: Foreign(ChainOf(WithRule(t, rules[k]), c), rules, c) == Foreign(ChainOf(t, c), rules, c)
  {
    hide ChainCapsFirst, Foreign;
    var r := rules[k];
    var name := (r.table, r.chain);
    CapOrPermit(rules, k);
    assert Managed(rules, name, r.body);
    hide IsCap, IsPermit, Managed;
    AddedKeepsOrder(ChainOf(t, name), rules, name, r.body);
    AddedKeepsForeign(ChainOf(t, name), rules, name, r.body);
    assert forall c :: c != name ==> ChainOf(WithRule(t, r), c) == ChainOf(t, c);
  }

  lemma CapOrPermit(rules: seq<Rule>, k: nat)
    requires k < |rules| && Different(rules)
    ensures var r := rules[k];
      if r.atTop then !IsPermit(rules, (r.table, r.chain), r.body) else !IsCap(rules, (r.table, r.chain), r.body)
  {
  }

  /** Order and foreign rules survive, wherever the pass stops; nothing is ever removed. */
  lemma {:induction false} AssertedKeeps(t: Tables, rules: seq<Rule>, n: nat, faults: nat -> bool, at: nat)
    requires n <= |rules| && CapsFirst(t, rules) && Different(rules)
    ensures var u := Asserted(t, rules[n..], faults, at).tables;
      && CapsFirst(u, rules)
      && (forall c :: Foreign(ChainOf(u, c), rules, c) == Foreign(ChainOf(t, c), rules, c))
      && (forall c, body :: body in ChainOf(t, c) ==> body in ChainOf(u, c))
      && u.dropByDefault == t.dropByDefault
    decreases |rules| - n
  {
    hide CapsFirst, Foreign;
    if n < |rules| {
      assert rules[n..][0] == rules[n] && rules[n..][1..] == rules[n + 1..];
      AssertedKeeps(t, rules, n + 1, faults, at + 1);
      if !faults(at + 1) {
        WithRuleKeeps(t, rules, n);
        AssertedKeeps(WithRule(t, rules[n]), rules, n + 1, faults, at + 2);
      }
    }
  }

  /** A pass that ends well has found or added every rule. */
  lemma {:induction false} AssertedHoldsAll(t: Tables, rules: seq<Rule>, n: nat, faults: nat -> bool, at: nat, k: nat)
    requires n <= k < |rules| && CapsFirst(t, rules) && Different(rules)
    requires Asserted(t, rules[n..], faults, at).ok
    ensures Present(Asserted(t, rules[n..], faults, at).tables, rules[k])
    decreases |rules| - n
  {
    hide CapsFirst, Different, Foreign;
    assert rules[n..][0] == rules[n] && rules[n..][1..] == rules[n + 1..];
    var found := !faults(at) && Present(t, rules[n]);
    if !found { WithRuleKeeps(t, rules, n); }
    var u := if found then t else WithRule(t, rules[n]);
    var next := if found then at + 1 else at + 2;
    if k == n {
      AssertedKeeps(u, rules, n + 1, faults, next);
    } else {
      AssertedHoldsAll(u, rules, n + 1, faults, next, k);
    }
  }

  /** Somewhere along the pass the check of a rule that is there fails and the addition
      that follows does not. */
  ghost predicate Doubles(t: Tables, rules: seq<Rule>, faults: nat -> bool, at: nat)
    decreases |rules|
  {
    rules != [] &&
    if !faults(at) && Present(t, rules[0]) then Doubles(t, rules[1..], faults, at + 1)
    else !faults(at + 1) && (Present(t, rules[0]) || Doubles(WithRule(t, rules[0]), rules[1..], faults, at + 2))
  }

  function CountOf(t: Tables, r: Rule): nat {
    multiset(ChainOf(t, (r.table, r.chain)))[r.body]
  }

  lemma WithRuleCounts(t: Tables, r: Rule, q: Rule)
    ensures CountOf(WithRule(t, r), q) ==
      CountOf(t, q) + if (q.table, q.chain, q.body) == (r.table, r.chain, r.body) then 1 else 0
  {
    var ch := ChainOf(t, (r.table, r.chain));
    assert multiset([r.body] + ch) == multiset{r.body} + multiset(ch) == multiset(ch + [r.body]);
  }

  lemma PresentIsCounted(t: Tables, r: Rule)
    ensures Present(t, r) <==> CountOf(t, r) >= 1
  {
    assert r.body in ChainOf(t, (r.table, r.chain)) <==> r.body in multiset(ChainOf(t, (r.table, r.chain)));
  }

  /** Nothing is ever removed. */
  lemma {:induction false} CountsOnlyGrow(t: Tables, rules: seq<Rule>, faults: nat -> bool, at: nat, q: Rule)
    ensures CountOf(Asserted(t, rules, faults, at).tables, q) >= CountOf(t, q)
    decreases |rules|
  {
    hide CountOf, WithRule;
    if rules != [] {
      CountsOnlyGrow(t, rules[1..], faults, at + 1, q);
      WithRuleCounts(t, rules[0], q);
      CountsOnlyGrow(WithRule(t, rules[0]), rules[1..], faults, at + 2, q);
    }
  }

  lemma WithMissingRule(t: Tables, rules: seq<Rule>, k: nat)
    requires k < |rules| && NoRepeats(t, rules) && !Present(t, rules[k])
    ensures NoRepeats(WithRule(t, rules[k]), rules)
  {
    var r := rules[k];
    var u, name := WithRule(t, r), (r.table, r.chain);
    var ch := ChainOf(t, name);
    assert multiset(ChainOf(u, name)) == multiset(ch) + multiset{r.body};
    assert r.body in ch <==> r.body in multiset(ch);
    assert forall c :: c != name ==> ChainOf(u, c) == ChainOf(t, c);
  }

  /** A pass over a list without repeats leaves one, wherever it stops, if and only if it
      does not double a rule. */
  lemma {:induction false} AssertedNoRepeatsIff(t: Tables, rules: seq<Rule>, n: nat, faults: nat -> bool, at: nat)
    requires n <= |rules| && NoRepeats(t, rules)
    ensures NoRepeats(Asserted(t, rules[n..], faults, at).tables, rules) <==> !Doubles(t, rules[n..], faults, at)
    decreases |rules| - n
  {
    hide NoRepeats, Present, WithRule;
    if n < |rules| {
      assert rules[n..][0] == rules[n] && rules[n..][1..] == rules[n + 1..];
      if !faults(at) && Present(t, rules[n]) {
        AssertedNoRepeatsIff(t, rules, n + 1, faults, at + 1);
      } else if !faults(at + 1) {
        if Present(t, rules[n]) {
          RuleDoubled(t, rules, n, faults, at + 2);
        } else {
          WithMissingRule(t, rules, n);
          AssertedNoRepeatsIff(WithRule(t, rules[n]), rules, n + 1, faults, at + 2);
        }
      }
    }
  }

  lemma RuleDoubled(t: Tables, rules: seq<Rule>, k: nat, faults: nat -> bool, at: nat)
    requires k < |rules| && Present(t, rules[k])
    ensures !NoRepeats(Asserted(WithRule(t, rules[k]), rules[k + 1..], faults, at).tables, rules)
  {
    var r := rules[k];
    PresentIsCounted(t, r);
    WithRuleCounts(t, r, r);
    CountsOnlyGrow(WithRule(t, r), rules[k + 1..], faults, at, r);
    hide Asserted, WithRule;
    assert Managed(rules, (r.table, r.chain), r.body);
  }

  // ----- the theorems

  /** From any chains in which caps stand first, whatever else was deleted or added, and
      wherever a call fails: caps stay first, foreign rules stay in their order, and a pass
      that succeeds leaves policy DROP and every managed rule in its chain. */
  lemma ReassertRestoresPolicy(t: Tables, st: RelayState, faults: nat -> bool, at: nat)
    requires CapsFirst(t, FirewallRules(st))
    ensures var (rules, r) := (FirewallRules(st), Reasserted(t, FirewallRules(st), faults, at));
      && CapsFirst(r.tables, rules)
      && (forall c :: Foreign(ChainOf(r.tables, c), rules, c) == Foreign(ChainOf(t, c), rules, c))
      && (r.ok ==> r.tables.dropByDefault && forall k :: 0 <= k < |rules| ==> Present(r.tables, rules[k]))
  {
    var rules := FirewallRules(st);
    hide FirewallRules;
    RulesAreDifferent(st);
    if !faults(at) {
      var u := t.(dropByDefault := true);
      assert forall c :: ChainOf(u, c) == ChainOf(t, c);
      assert CapsFirst(u, rules);
      hide CapsFirst, Different;
      assert rules[0..] == rules;
      AssertedKeeps(u, rules, 0, faults, at + 1);
      var r := Asserted(u, rules, faults, at + 1);
      if r.ok {
        forall k: nat | k < |rules| ensures Present(r.tables, rules[k]) { AssertedHoldsAll(u, rules, 0, faults, at + 1, k); }
      }
    }
  }

  /** From chains in which no managed rule repeats, a pass leaves such chains, wherever it
      stops, if and only if no check of a rule that is there fails ahead of an addition that
      does not; then a pass that succeeds leaves each managed rule in its chain exactly once. */
  lemma ReassertLeavesEachRuleOnceIff(t: Tables, st: RelayState, faults: nat -> bool, at: nat)
    requires CapsFirst(t, FirewallRules(st)) && NoRepeats(t, FirewallRules(st))
    ensures var (rules, r) := (FirewallRules(st), Reasserted(t, FirewallRules(st), faults, at));
      var kept := faults(at) || !Doubles(t.(dropByDefault := true), rules, faults, at + 1);
      && (NoRepeats(r.tables, rules) <==> kept)
      && (r.ok ==> ((forall k :: 0 <= k < |rules| ==> CountOf(r.tables, rules[k]) == 1) <==> kept))
  {
    hide FirewallRules;
    ReassertRestoresPolicy(t, st, faults, at);
    hide CapsFirst, Foreign;
    var rules := FirewallRules(st);
    var u := t.(dropByDefault := true);
    assert forall c :: ChainOf(u, c) == ChainOf(t, c);
    assert NoRepeats(u, rules);
    assert rules[0..] == rules;
    if !faults(at) { AssertedNoRepeatsIff(u, rules, 0, faults, at + 1); }
    var r := Reasserted(t, rules, faults, at);
    hide Asserted, Reasserted;
    if r.ok { OnceEachIff(r.tables, rules); }
  }

  lemma OnceEachIff(t: Tables, rules: seq<Rule>)
    requires forall k :: 0 <= k < |rules| ==> Present(t, rules[k])
    ensures NoRepeats(t, rules) <==> forall k :: 0 <= k < |rules| ==> CountOf(t, rules[k]) == 1
  {
    forall k | 0 <= k < |rules| ensures CountOf(t, rules[k]) >= 1 { PresentIsCounted(t, rules[k]); }
    if NoRepeats(t, rules) {
      forall k | 0 <= k < |rules| ensures CountOf(t, rules[k]) == 1 {
        assert Managed(rules, (rules[k].table, rules[k].chain), rules[k].body);
      }
    }
    if forall k :: 0 <= k < |rules| ==> CountOf(t, rules[k]) == 1 {
      forall c, body | Managed(rules, c, body) ensures multiset(ChainOf(t, c))[body] <= 1 {
        var i :| 0 <= i < |rules| && (rules[i].table, rules[i].chain) == c && rules[i].body == body;
        assert CountOf(t, rules[i]) == 1;
      }
    }
  }

  lemma {:induction false} NothingMissingIff(t: Tables, rules: seq<Rule>, faults: nat -> bool, at: nat)
    requires forall k :: 0 <= k < |rules| ==> Present(t, rules[k])
    ensures Asserted(t, rules, faults, at).tables == t <==> !Doubles(t, rules, faults, at)
    decreases |rules|
  {
    if rules != [] {
      assert Present(t, rules[0]);
      forall k | 0 <= k < |rules[1..]| ensures Present(t, rules[1..][k]) { assert rules[1..][k] == rules[k + 1]; }
      if !faults(at) {
        NothingMissingIff(t, rules[1..], faults, at + 1);
      } else if !faults(at + 1) {
        WithRuleCounts(t, rules[0], rules[0]);
        CountsOnlyGrow(WithRule(t, rules[0]), rules[1..], faults, at + 2, rules[0]);
        hide CountOf, WithRule;
      }
    }
  }

  /** A pass over tables that an earlier one left complete changes nothing at all if and
      only if it does not double a rule. */
  lemma SecondReassertAddsNothingIff(t: Tables, st: RelayState, faults: nat -> bool, at: nat, faults': nat -> bool, at': nat)
    requires CapsFirst(t, FirewallRules(st)) && Reasserted(t, FirewallRules(st), faults, at).ok
    ensures var (rules, u) := (FirewallRules(st), Reasserted(t, FirewallRules(st), faults, at).tables);
      Reasserted(u, rules, faults', at').tables == u <==> faults'(at') || !Doubles(u, rules, faults', at' + 1)
  {
    hide FirewallRules;
    ReassertRestoresPolicy(t, st, faults, at);
    hide CapsFirst;
    var u := Reasserted(t, FirewallRules(st), faults, at).tables;
    assert u.(dropByDefault := true) == u;
    if !faults'(at') { NothingMissingIff(u, FirewallRules(st), faults', at' + 1); }
  }

  /** One single failing call is enough: on complete tables, the check of any of the seven
      rules fails, the pass still succeeds, and that rule is there once more than before. */
  lemma SpuriousCheckDoubles(t: Tables, st: RelayState, k: nat, faults: nat -> bool, at: nat)
    requires k < |FirewallRules(st)| && forall i :: 0 <= i < |FirewallRules(st)| ==> Present(t, FirewallRules(st)[i])
    requires forall c: nat :: faults(c) <==> c == at + 1 + k
    ensures var (rules, r) := (FirewallRules(st), Reasserted(t, FirewallRules(st), faults, at));
      && r.ok && !NoRepeats(r.tables, rules)
      && forall q :: CountOf(r.tables, q) ==
           CountOf(t, q) + if (q.table, q.chain, q.body) == (rules[k].table, rules[k].chain, rules[k].body) then 1 else 0
  {
    hide FirewallRules;
    var rules, u := FirewallRules(st), t.(dropByDefault := true);
    assert forall c :: ChainOf(u, c) == ChainOf(t, c);
    assert rules[0..] == rules;
    ChecksUpTo(u, rules, 0, k, faults, at + 1);
    var v := WithRule(u, rules[k]);
    forall q ensures CountOf(v, q) ==
      CountOf(t, q) + if (q.table, q.chain, q.body) == (rules[k].table, rules[k].chain, rules[k].body) then 1 else 0
    {
      WithRuleCounts(u, rules[k], q);
    }
    PresentIsCounted(t, rules[k]);
    assert CountOf(v, rules[k]) >= 2 && Managed(rules, (rules[k].table, rules[k].chain), rules[k].body);
  }

  /** The pass goes through the rules before the failing check, adds that one again, and
      finds the rest. */
  lemma {:induction false} ChecksUpTo(t: Tables, rules: seq<Rule>, n: nat, k: nat, faults: nat -> bool, at: nat)
    requires n <= k < |rules| && forall i :: 0 <= i < |rules| ==> Present(t, rules[i])
    requires forall c: nat :: faults(c) <==> c == at + (k - n)
    ensures var r := Asserted(t, rules[n..], faults, at); r.ok && r.tables == WithRule(t, rules[k])
    decreases k - n
  {
    assert rules[n..][0] == rules[n] && rules[n..][1..] == rules[n + 1..];
    if n < k {
      ChecksUpTo(t, rules, n + 1, k, faults, at + 1);
    } else {
      var u := WithRule(t, rules[k]);
      forall i | 0 <= i < |rules| ensures Present(u, rules[i]) {
        PresentIsCounted(t, rules[i]);
        WithRuleCounts(t, rules[k], rules[i]);
        PresentIsCounted(u, rules[i]);
      }
      AllFound(u, rules, k + 1, faults, at + 2);
    }
  }

  lemma {:induction false} AllFound(t: Tables, rules: seq<Rule>, n: nat, faults: nat -> bool, at: nat)
    requires n <= |rules| && forall i :: 0 <= i < |rules| ==> Present(t, rules[i])
    requires forall c: nat :: at <= c ==> !faults(c)
    ensures var r := Asserted(t, rules[n..], faults, at); r.ok && r.tables == t
    decreases |rules| - n
  {
    if n < |rules| {
      assert rules[n..][0] == rules[n] && rules[n..][1..] == rules[n + 1..];
      AllFound(t, rules, n + 1, faults, at + 1);
    }
  }

  // ----- what the order is for

  /** What a rule does with a packet it hits: its last word. */
  predicate EndsIn(body: seq<string>, target: string) {
    body != [] && body[|body| - 1] == target
  }

  /** In every chain each managed rule that drops stands above each that accepts. */
  ghost predicate DropsAboveAccepts(t: Tables, rules: seq<Rule>) {
    forall c :: ChainDropsFirst(ChainOf(t, c), rules, c)
  }

  ghost predicate ChainDropsFirst(ch: Chain, rules: seq<Rule>, c: ChainName) {
    forall i, j :: 0 <= i < |ch| && 0 <= j < |ch|
      && Managed(rules, c, ch[i]) && EndsIn(ch[i], "DROP") && Managed(rules, c, ch[j]) && EndsIn(ch[j], "ACCEPT")
      ==> i < j
  }

  const FORWARD: ChainName := ("filter", "FORWARD")

  /** Exactly the rules that drop go in at the top; they are in FORWARD, where all others accept. */
  lemma RuleKinds(st: RelayState, k: nat)
    requires k < |FirewallRules(st)|
    ensures var r := FirewallRules(st)[k];
      && (r.atTop <==> EndsIn(r.body, "DROP"))
      && (r.atTop ==> (r.table, r.chain) == FORWARD)
      && ((r.table, r.chain) == FORWARD && !r.atTop ==> EndsIn(r.body, "ACCEPT"))
      && (EndsIn(r.body, "DROP") ==> !EndsIn(r.body, "ACCEPT"))
  {
    assert "DROP"[0] != "ACCEPT"[0];
  }

  lemma KindsOfBodies(st: RelayState, c: ChainName, body: seq<string>)
    ensures var rules := FirewallRules(st);
      && (IsCap(rules, c, body) <==> Managed(rules, c, body) && EndsIn(body, "DROP"))
      && (Managed(rules, c, body) && EndsIn(body, "ACCEPT") ==> IsPermit(rules, c, body))
      && (c == FORWARD && IsPermit(rules, c, body) ==> EndsIn(body, "ACCEPT"))
      && (IsCap(rules, c, body) ==> c == FORWARD)
  {
    forall k: nat | k < |FirewallRules(st)|
      ensures var r := FirewallRules(st)[k];
        && (r.atTop <==> EndsIn(r.body, "DROP")) && (r.atTop ==> (r.table, r.chain) == FORWARD)
        && ((r.table, r.chain) == FORWARD && !r.atTop ==> EndsIn(r.body, "ACCEPT"))
        && (EndsIn(r.body, "DROP") ==> !EndsIn(r.body, "ACCEPT"))
    {
      RuleKinds(st, k);
    }
    hide FirewallRules;
  }

  /** The order the pass keeps is that one. */
  lemma CapsFirstIsDropsAbove(t: Tables, st: RelayState)
    ensures CapsFirst(t, FirewallRules(st)) <==> DropsAboveAccepts(t, FirewallRules(st))
  {
    forall c ensures ChainCapsFirst(ChainOf(t, c), FirewallRules(st), c) <==> ChainDropsFirst(ChainOf(t, c), FirewallRules(st), c) {
      var ch := ChainOf(t, c);
      forall body ensures var rules := FirewallRules(st);
        && (IsCap(rules, c, body) <==> Managed(rules, c, body) && EndsIn(body, "DROP"))
        && (Managed(rules, c, body) && EndsIn(body, "ACCEPT") ==> IsPermit(rules, c, body))
        && (c == FORWARD && IsPermit(rules, c, body) ==> EndsIn(body, "ACCEPT"))
        && (IsPermit(rules, c, body) ==> Managed(rules, c, body))
        && (IsCap(rules, c, body) ==> c == FORWARD)
      {
        KindsOfBodies(st, c, body);
      }
      hide FirewallRules, Managed, IsCap, IsPermit, EndsIn;
    }
  }

  /** Wherever a pass stops, what it added to a chain lies around what was there: rules that
      drop above it, the others below. */
  lemma {:induction false} AssertedAround(t: Tables, rules: seq<Rule>, n: nat, faults: nat -> bool, at: nat, c: ChainName)
    returns (above: Chain, below: Chain)
    requires n <= |rules|
    ensures ChainOf(Asserted(t, rules[n..], faults, at).tables, c) == above + ChainOf(t, c) + below
    ensures forall body :: body in above ==> IsCap(rules, c, body)
    ensures forall body :: body in below ==> IsPermit(rules, c, body)
    decreases |rules| - n
  {
    hide WithRule, Present, IsCap, IsPermit;
    above, below := [], [];
    if n < |rules| {
      var r := rules[n];
      assert rules[n..][0] == r && rules[n..][1..] == rules[n + 1..];
      if !faults(at) && Present(t, r) {
        above, below := AssertedAround(t, rules, n + 1, faults, at + 1, c);
      } else if !faults(at + 1) {
        above, below := AssertedAround(WithRule(t, r), rules, n + 1, faults, at + 2, c);
        WithRuleAround(t, rules, n, c, above, below);
        if (r.table, r.chain) == c {
          if r.atTop { above := above + [r.body]; } else { below := [r.body] + below; }
        }
      }
    }
  }

  lemma WithRuleAround(t: Tables, rules: seq<Rule>, n: nat, c: ChainName, above: Chain, below: Chain)
    requires n < |rules|
    ensures var (r, ch) := (rules[n], ChainOf(t, c));
      && above + ChainOf(WithRule(t, r), c) + below ==
           (if (r.table, r.chain) != c then above + ch + below
            else if r.atTop then above + [r.body] + ch + below
            else above + ch + ([r.body] + below))
      && ((r.table, r.chain) == c ==> if r.atTop then IsCap(rules, c, r.body) else IsPermit(rules, c, r.body))
  {
    var r, ch := rules[n], ChainOf(t, c);
    if (r.table, r.chain) == c {
      assert above + ([r.body] + ch) + below == above + [r.body] + ch + below;
      assert above + (ch + [r.body]) + below == above + ch + ([r.body] + below);
    }
  }

  /** A pass, wherever it stops, leaves managed drops above managed accepts if and only if it
      found them so: it neither breaks the order nor repairs it. */
  lemma OrderKeptIff(t: Tables, st: RelayState, faults: nat -> bool, at: nat)
    ensures DropsAboveAccepts(Reasserted(t, FirewallRules(st), faults, at).tables, FirewallRules(st)) <==>
      DropsAboveAccepts(t, FirewallRules(st))
  {
    var rules, u := FirewallRules(st), t.(dropByDefault := true);
    var r := Reasserted(t, rules, faults, at);
    CapsFirstIsDropsAbove(t, st);
    CapsFirstIsDropsAbove(r.tables, st);
    if DropsAboveAccepts(t, rules) { ReassertRestoresPolicy(t, st, faults, at); }
    hide FirewallRules, CapsFirst;
    assert rules[0..] == rules;
    if DropsAboveAccepts(r.tables, rules) && !faults(at) {
      forall c ensures ChainDropsFirst(ChainOf(t, c), rules, c) {
        var above, below := AssertedAround(u, rules, 0, faults, at + 1, c);
        assert ChainOf(u, c) == ChainOf(t, c);
        MiddleKeepsOrder(above, ChainOf(t, c), below, rules, c);
      }
    }
  }

  lemma MiddleKeepsOrder(above: Chain, ch: Chain, below: Chain, rules: seq<Rule>, c: ChainName)
    requires ChainDropsFirst(above + ch + below, rules, c)
    ensures ChainDropsFirst(ch, rules, c)
  {
    hide Managed, EndsIn;
    var all := above + ch + below;
    forall i | 0 <= i < |ch| ensures ch[i] == all[|above| + i] {}
  }

  /** A rule that drops and was missing stands, after a success, above everything that was in
      its chain, whosever it is. */
  lemma MissingDropGoesOnTop(t: Tables, st: RelayState, faults: nat -> bool, at: nat, k: nat)
    requires k < |FirewallRules(st)| && Reasserted(t, FirewallRules(st), faults, at).ok
    requires EndsIn(FirewallRules(st)[k].body, "DROP") && !Present(t, FirewallRules(st)[k])
    ensures var (rule, u) := (FirewallRules(st)[k], Reasserted(t, FirewallRules(st), faults, at).tables);
      var c := (rule.table, rule.chain);
      exists above, below :: ChainOf(u, c) == above + ChainOf(t, c) + below && rule.body in above
  {
    var rules, u := FirewallRules(st), t.(dropByDefault := true);
    var rule := rules[k];
    var c := (rule.table, rule.chain);
    RuleKinds(st, k);
    RulesAreDifferent(st);
    CapOrPermit(rules, k);
    hide FirewallRules, Different;
    assert rules[0..] == rules;
    var above, below := AssertedAround(u, rules, 0, faults, at + 1, c);
    assert ChainOf(u, c) == ChainOf(t, c);
    EveryRuleIsThere(u, rules, 0, faults, at + 1, k);
  }

  lemma {:induction false} EveryRuleIsThere(t: Tables, rules: seq<Rule>, n: nat, faults: nat -> bool, at: nat, k: nat)
    requires n <= k < |rules| && Asserted(t, rules[n..], faults, at).ok
    ensures Present(Asserted(t, rules[n..], faults, at).tables, rules[k])
    decreases |rules| - n
  {
    hide WithRule, Present, CountOf;
    assert rules[n..][0] == rules[n] && rules[n..][1..] == rules[n + 1..];
    var found := !faults(at) && Present(t, rules[n]);
    var u := if found then t else WithRule(t, rules[n]);
    var next := if found then at + 1 else at + 2;
    if k == n {
      WithRuleCounts(t, rules[n], rules[n]);
      PresentIsCounted(t, rules[n]);
      CountsOnlyGrow(u, rules[n + 1..], faults, next, rules[n]);
      PresentIsCounted(Asserted(u, rules[n + 1..], faults, next).tables, rules[n]);
    } else {
      EveryRuleIsThere(u, rules, n + 1, faults, next, k);
    }
  }

  // ----- what the installer leaves

  /** The installer puts each rule it does not find in at the top of its chain. */
  function InstalledInto(t: Tables, rules: seq<Rule>): Tables
    decreases |rules|
  {
    if rules == [] then t
    else InstalledInto(if Present(t, rules[0]) then t else WithRule(t, rules[0].(atTop := true)), rules[1..])
  }

  function Installed(st: RelayState): Tables {
    InstalledInto(Tables(true, map[]), FirewallRules(st))
  }

  /** The rules of one chain, the last one first. */
  function LastFirst(rules: seq<Rule>, c: ChainName): Chain {
    if rules == [] then []
    else LastFirst(rules[1..], c) + if (rules[0].table, rules[0].chain) == c then [rules[0].body] else []
  }

  lemma {:induction false} InstalledIs(t: Tables, rules: seq<Rule>, c: ChainName)
    requires Different(rules) && forall k :: 0 <= k < |rules| ==> !Present(t, rules[k])
    ensures ChainOf(InstalledInto(t, rules), c) == LastFirst(rules, c) + ChainOf(t, c)
    decreases |rules|
  {
    if rules != [] {
      var r := rules[0].(atTop := true);
      var u := WithRule(t, r);
      forall k | 0 <= k < |rules[1..]| ensures !Present(u, rules[1..][k]) {
        assert rules[1..][k] == rules[k + 1];
        WithRuleCounts(t, r, rules[k + 1]);
        PresentIsCounted(t, rules[k + 1]);
        PresentIsCounted(u, rules[k + 1]);
      }
      TailDiffers(rules);
      InstalledIs(u, rules[1..], c);
    }
  }

  lemma TailDiffers(rules: seq<Rule>)
    requires Different(rules) && rules != []
    ensures Different(rules[1..])
  {
    forall i, j | 0 <= i < j < |rules[1..]|
      ensures (rules[1..][i].table, rules[1..][i].chain, rules[1..][i].body) != (rules[1..][j].table, rules[1..][j].chain, rules[1..][j].body)
    {
      assert rules[1..][i] == rules[i + 1] && rules[1..][j] == rules[j + 1];
    }
  }

  /** So on a fresh machine the permissions end up above the caps, and no pass changes that:
      a packet over a cap is accepted if a permission hits it too. */
  lemma InstallerLeavesCapsBelow(st: RelayState, faults: nat -> bool, at: nat, hits: seq<string> -> bool)
    ensures var (rules, t) := (FirewallRules(st), Installed(st));
      && ChainOf(t, FORWARD) == [rules[3].body, rules[2].body, rules[1].body, rules[0].body]
      && !DropsAboveAccepts(t, rules)
      && !DropsAboveAccepts(Reasserted(t, rules, faults, at).tables, rules)
      && (hits(rules[2].body) || hits(rules[3].body) ==> Decided(ChainOf(t, FORWARD), hits, "DROP") == "ACCEPT")
  {
    var rules, t := FirewallRules(st), Installed(st);
    RulesAreDifferent(st);
    InstalledIs(Tables(true, map[]), rules, FORWARD);
    ForwardRules(st);
    RuleKinds(st, 0);
    RuleKinds(st, 2);
    RuleKinds(st, 3);
    OrderKeptIff(t, st, faults, at);
    var ch := ChainOf(t, FORWARD);
    assert ch == [rules[3].body, rules[2].body, rules[1].body, rules[0].body];
    assert Managed(rules, FORWARD, ch[3]) && Managed(rules, FORWARD, ch[0]);
    assert !ChainDropsFirst(ch, rules, FORWARD);
    assert ch[1..][0] == ch[1];
    hide FirewallRules;
  }

  lemma ForwardRules(st: RelayState)
    ensures var rules := FirewallRules(st);
      && LastFirst(rules, FORWARD) == [rules[3].body, rules[2].body, rules[1].body, rules[0].body]
      && !rules[2].atTop && !rules[3].atTop && rules[0].atTop
      && forall k :: 0 <= k < 4 ==> (rules[k].table, rules[k].chain) == FORWARD
  {
    var rules := FirewallRules(st);
    assert LastFirst(rules[7..], FORWARD) == [];
    assert rules[6..][1..] == rules[7..] && LastFirst(rules[6..], FORWARD) == [];
    assert rules[5..][1..] == rules[6..] && LastFirst(rules[5..], FORWARD) == [];
    assert rules[4..][1..] == rules[5..] && LastFirst(rules[4..], FORWARD) == [];
    assert rules[3..][1..] == rules[4..] && LastFirst(rules[3..], FORWARD) == [rules[3].body];
    assert rules[2..][1..] == rules[3..] && LastFirst(rules[2..], FORWARD) == [rules[3].body, rules[2].body];
    assert rules[1..][1..] == rules[2..] && LastFirst(rules[1..], FORWARD) == [rules[3].body, rules[2].body, rules[1].body];
  }

  predicate WordsAt(body: seq<string>, i: nat, words: seq<string>) {
    i + |words| <= |body| && forall j :: 0 <= j < |words| ==> body[i + j] == words[j]
  }

  /** The rule has these words next to one another. */
  ghost predicate Names(body: seq<string>, words: seq<string>) {
    exists i: nat :: WordsAt(body, i, words)
  }

  /** What a player sends is accepted only to an address of the allowlist, what comes back
      only if it belongs to a connection; a cap carries the rate of this relay. */
  ghost predicate Narrow(st: RelayState, body: seq<string>) {
    && |body| >= 2 && (body[0] == "-s" || body[0] == "-d") && body[1] == st.innerSubnet
    && (EndsIn(body, "ACCEPT") && body[0] == "-s" ==> Names(body, ["--match-set", st.setName, "dst"]))
    && (EndsIn(body, "ACCEPT") && body[0] == "-d" ==> Names(body, ["--ctstate", "RELATED,ESTABLISHED"]))
    && (EndsIn(body, "DROP") ==>
          Names(body, ["--hashlimit-above", st.rateLimit]) && Names(body, ["--hashlimit-burst", st.rateBurst])
          && Names(body, ["--hashlimit-mode", if body[0] == "-s" then "srcip" else "dstip"]))
  }

  /** No rule of FORWARD accepts more than it must. */
  lemma ForwardRulesAreNarrow(st: RelayState, k: nat)
    requires k < |FirewallRules(st)| && (FirewallRules(st)[k].table, FirewallRules(st)[k].chain) == FORWARD
    ensures Narrow(st, FirewallRules(st)[k].body)
  {
    hide Narrow;
    CapIsNarrow(st, "-s", "srcip", "gnl-up");
    CapIsNarrow(st, "-d", "dstip", "gnl-down");
    PermitsAreNarrow(st);
    assert FirewallRules(st)[0] == Cap(st, "-s", "srcip", "gnl-up") && FirewallRules(st)[1] == Cap(st, "-d", "dstip", "gnl-down");
    assert k < 4;
  }

  lemma CapIsNarrow(st: RelayState, dir: string, mode: string, name: string)
    requires (dir == "-s" && mode == "srcip") || (dir == "-d" && mode == "dstip")
    ensures Narrow(st, Cap(st, dir, mode, name).body)
  {
    var body := Cap(st, dir, mode, name).body;
    assert EndsIn(body, "DROP") && "DROP"[0] != "ACCEPT"[0] && "-s"[1] != "-d"[1];
    assert WordsAt(body, 4, ["--hashlimit-above", st.rateLimit]);
    assert WordsAt(body, 6, ["--hashlimit-burst", st.rateBurst]);
    assert WordsAt(body, 8, ["--hashlimit-mode", mode]);
  }

  lemma PermitsAreNarrow(st: RelayState)
    ensures Narrow(st, FirewallRules(st)[2].body) && Narrow(st, FirewallRules(st)[3].body)
  {
    var (b, c) := (FirewallRules(st)[2].body, FirewallRules(st)[3].body);
    assert EndsIn(b, "ACCEPT") && EndsIn(c, "ACCEPT") && "DROP"[0] != "ACCEPT"[0] && "-s"[1] != "-d"[1];
    assert WordsAt(b, 4, ["--match-set", st.setName, "dst"]);
    assert WordsAt(c, 4, ["--ctstate", "RELATED,ESTABLISHED"]);
  }

  // ----- what becomes of a packet

  /** The first rule of a chain that hits decides, else the chain's policy. */
  function Decided(ch: Chain, hits: seq<string> -> bool, policy: string): string {
    if ch == [] then policy
    else if hits(ch[0]) then (if ch[0] == [] then "" else ch[0][|ch[0]| - 1])
    else Decided(ch[1..], hits, policy)
  }

  ghost predicate FirstHit(ch: Chain, hits: seq<string> -> bool, i: int) {
    0 <= i < |ch| && hits(ch[i]) && forall j :: 0 <= j < i ==> !hits(ch[j])
  }

  /** The place of the rule that decides, or -1. */
  lemma {:induction false} WhoDecides(ch: Chain, hits: seq<string> -> bool, policy: string) returns (i: int)
    ensures i == -1 || FirstHit(ch, hits, i)
    ensures i == -1 ==> (forall j :: 0 <= j < |ch| ==> !hits(ch[j])) && Decided(ch, hits, policy) == policy
    ensures i >= 0 && ch[i] != [] ==> Decided(ch, hits, policy) == ch[i][|ch[i]| - 1]
  {
    i := -1;
    if ch != [] {
      if hits(ch[0]) {
        i := 0;
      } else {
        var k := WhoDecides(ch[1..], hits, policy);
        i := if k == -1 then -1 else k + 1;
        forall j | 0 <= j < if i == -1 then |ch| else i ensures !hits(ch[j]) { assert j > 0 ==> ch[j] == ch[1..][j - 1]; }
      }
    }
  }

  ghost predicate HitBy(rules: seq<Rule>, hits: seq<string> -> bool, target: string) {
    exists k :: 0 <= k < |rules| && (rules[k].table, rules[k].chain) == FORWARD && EndsIn(rules[k].body, target) && hits(rules[k].body)
  }

  /** After a successful pass, a forwarded packet that no foreign rule hits is dropped when it
      is over a cap, whatever else permits it; otherwise accepted exactly when a managed rule
      permits it, and dropped when none does. */
  lemma PacketsAreJudged(t: Tables, st: RelayState, faults: nat -> bool, at: nat, hits: seq<string> -> bool)
    requires DropsAboveAccepts(t, FirewallRules(st)) && Reasserted(t, FirewallRules(st), faults, at).ok
    requires var ch := ChainOf(Reasserted(t, FirewallRules(st), faults, at).tables, FORWARD);
      forall body :: body in ch && hits(body) ==> Managed(FirewallRules(st), FORWARD, body)
    ensures var (rules, u) := (FirewallRules(st), Reasserted(t, FirewallRules(st), faults, at).tables);
      Decided(ChainOf(u, FORWARD), hits, if u.dropByDefault then "DROP" else "ACCEPT") ==
        if HitBy(rules, hits, "DROP") then "DROP" else if HitBy(rules, hits, "ACCEPT") then "ACCEPT" else "DROP"
  {
    var rules := FirewallRules(st);
    var u := Reasserted(t, rules, faults, at).tables;
    CapsFirstIsDropsAbove(t, st);
    ReassertRestoresPolicy(t, st, faults, at);
    CapsFirstIsDropsAbove(u, st);
    forall body ensures (IsCap(rules, FORWARD, body) <==> Managed(rules, FORWARD, body) && EndsIn(body, "DROP"))
      && (IsPermit(rules, FORWARD, body) ==> EndsIn(body, "ACCEPT"))
    {
      KindsOfBodies(st, FORWARD, body);
    }
    ManagedIsEither(rules, FORWARD);
    hide FirewallRules, CapsFirst;
    var ch := ChainOf(u, FORWARD);
    assert ChainDropsFirst(ch, rules, FORWARD);
    forall k | 0 <= k < |rules| && (rules[k].table, rules[k].chain) == FORWARD ensures rules[k].body in ch {
      assert Present(u, rules[k]);
    }
    hide Reasserted;
    JudgedByOrder(ch, rules, hits);
  }

  lemma ManagedIsEither(rules: seq<Rule>, c: ChainName)
    ensures forall body :: Managed(rules, c, body) ==> IsCap(rules, c, body) || IsPermit(rules, c, body)
  {
  }

  lemma JudgedByOrder(ch: Chain, rules: seq<Rule>, hits: seq<string> -> bool)
    requires ChainDropsFirst(ch, rules, FORWARD)
    requires forall body :: body in ch && hits(body) ==> Managed(rules, FORWARD, body)
    requires forall body :: Managed(rules, FORWARD, body) ==> EndsIn(body, "DROP") || EndsIn(body, "ACCEPT")
    requires forall k :: 0 <= k < |rules| && (rules[k].table, rules[k].chain) == FORWARD ==> rules[k].body in ch
    ensures Decided(ch, hits, "DROP") ==
      if HitBy(rules, hits, "DROP") then "DROP" else if HitBy(rules, hits, "ACCEPT") then "ACCEPT" else "DROP"
  {
    var i := WhoDecides(ch, hits, "DROP");
    if i >= 0 {
      assert ch[i] in ch && Managed(rules, FORWARD, ch[i]);
      if HitBy(rules, hits, "DROP") {
        var k :| 0 <= k < |rules| && (rules[k].table, rules[k].chain) == FORWARD && EndsIn(rules[k].body, "DROP") && hits(rules[k].body);
        assert rules[k].body in ch && Managed(rules, FORWARD, rules[k].body);
        var m :| 0 <= m < |ch| && ch[m] == rules[k].body;
        assert i <= m;
        assert !EndsIn(ch[i], "ACCEPT");
      }
    }
  }
}
