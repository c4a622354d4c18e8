/** Loading the signature rules in place and classifying a packet by them. */
module Signatures {
  import opened Bytes
  import opened Canonical
  import opened Options
  import opened Sequences
  import Fnv

  datatype Rule = Rule(ruleId: seq<byte>, matchPattern: seq<byte>, severity: string)

  predicate Usable(r: Rule) {
    r.ruleId != [] && r.matchPattern != []
  }

  /** The usable rules, in their order. */
  function UsableRules(rules: seq<Rule>): (active: seq<Rule>)
    ensures |active| <= |rules|
  {
    if rules == [] then []
    else
      var last := |rules| - 1;
      UsableRules(rules[..last]) + if Usable(rules[last]) then [rules[last]] else []
  }

  /** The filter of loadNoseSignatureRules: the kept rules are written over the front of the very
      array the loop still reads from. The first n slots are the result, the others stay as they were. */
  method CompactRules(rules: array<Rule>) returns (n: nat)
    modifies rules
    ensures n <= rules.Length
    ensures rules[..n] == UsableRules(old(rules[..]))
    ensures rules[n..] == old(rules[n..])
  {
    hide Usable;
    n := 0;
    for i := 0 to rules.Length
      invariant n <= i
      invariant rules[..n] == UsableRules(old(rules[..i]))
      invariant rules[n..] == old(rules[n..])
    {
      var rule := rules[i];
      assert rule == old(rules[i]) by {
        assert rules[n..][i - n] == old(rules[n..])[i - n];
      }
      assert old(rules[..i + 1])[..i] == old(rules[..i]);
      if Usable(rule) {
        ghost var before := rules[..];
        rules[n] := rule;
        assert rules[..] == before[n := rule];
        assert rules[n + 1..] == before[n..][1..] == old(rules[n..])[1..] == old(rules[n + 1..]);
        assert rules[..n + 1] == before[..n] + [rule];
        n := n + 1;
      }
    }
    assert old(rules[..rules.Length]) == old(rules[..]);
  }

  /** strings.Contains on the bytes of payload and pattern. */
  function Occurs(payload: seq<byte>): Rule -> bool {
    (r: Rule) => Contains(payload, r.matchPattern)
  }

  function UsableAnd(p: Rule -> bool): Rule -> bool {
    (r: Rule) => Usable(r) && p(r)
  }

  /** The first rule of a list that p holds of. */
  function First(rules: seq<Rule>, p: Rule -> bool): Option<Rule> {
    if rules == [] then None
    else if p(rules[0]) then Some(rules[0])
    else First(rules[1..], p)
  }

  lemma {:induction false} FirstAppend(x: seq<Rule>, y: seq<Rule>, p: Rule -> bool)
    ensures First(x + y, p) == if First(x, p).Some? then First(x, p) else First(y, p)
  {
    if x == [] {
      assert x + y == y;
    } else {
      assert (x + y)[1..] == x[1..] + y;
      FirstAppend(x[1..], y, p);
    }
  }

  /** Searching the loaded rules finds the first rule of the file that is usable and matches. */
  lemma {:induction false} FirstOfUsable(rules: seq<Rule>, p: Rule -> bool)
    ensures First(UsableRules(rules), p) == First(rules, UsableAnd(p))
  {
    var q := UsableAnd(p);
    if rules == [] {
    } else {
      var last := |rules| - 1;
      var front, r := rules[..last], rules[last];
      FirstOfUsable(front, p);
      assert rules == front + [r];
      FirstAppend(front, [r], q);
      FirstAppend(UsableRules(front), if Usable(r) then [r] else [], p);
      assert [r][1..] == [];
      assert First([r], q) == if Usable(r) && p(r) then Some(r) else None;
      assert First([r], p) == if p(r) then Some(r) else None;
    }
  }

  /** strings.ToLower as far as ASCII results go. Of the letters beyond ASCII only the dotted capital I and
      the Kelvin sign have an ASCII lower case; the others are left alone here, since whatever they become
      is in none of the words looked for. */
  function LowerChar(c: char): char {
    if 'A' <= c <= 'Z' then c - 'A' + 'a'
    else if c == '\U{0130}' then 'i'
    else if c == '\U{212A}' then 'k'
    else c
  }

  function Lower(s: string): string {
    seq(|s|, i requires 0 <= i < |s| => LowerChar(s[i]))
  }

  function SeverityOrdinal(value: string): byte {
    var v := Lower(value);
    if v == "medium" then 1 else if v == "high" then 2 else if v == "critical" then 3 else 0
  }

  /** The three words in any ASCII case, and nothing else, rank above 0. */
  lemma SeverityWords(value: string)
    ensures SeverityOrdinal(value) == 1 <==> Lower(value) == "medium"
    ensures SeverityOrdinal(value) == 2 <==> Lower(value) == "high"
    ensures SeverityOrdinal(value) == 3 <==> Lower(value) == "critical"
    ensures SeverityOrdinal(value) <= 3
    ensures SeverityOrdinal("Medium") == 1 && SeverityOrdinal("High") == 2 && SeverityOrdinal("CRITICAL") == 3
  {
    assert Lower("Medium") == "medium" && Lower("High") == "high" && Lower("CRITICAL") == "critical";
  }

  /** Rule k is the first whose pattern occurs in the payload. */
  predicate FirstMatch(rules: seq<Rule>, payload: seq<byte>, k: nat) {
    && k < |rules| && Contains(payload, rules[k].matchPattern)
    && forall j :: 0 <= j < k ==> !Contains(payload, rules[j].matchPattern)
  }

  lemma {:induction false} FirstMeans(rules: seq<Rule>, p: Rule -> bool) returns (k: nat)
    ensures First(rules, p).None? ==> forall j :: 0 <= j < |rules| ==> !p(rules[j])
    ensures First(rules, p).Some? ==>
      k < |rules| && First(rules, p) == Some(rules[k]) && p(rules[k]) && forall j :: 0 <= j < k ==> !p(rules[j])
  {
    k := 0;
    if rules == [] || p(rules[0]) {
    } else {
      var i := FirstMeans(rules[1..], p);
      assert forall j :: 0 < j < |rules| ==> rules[j] == rules[1..][j - 1];
      k := i + 1;
    }
  }

  /** With a first matching rule: type 1, the FNV hash of its id and the rank of its severity; without one:
      type, rule and severity as before. Everything else is as before in either case. */
  ghost predicate ClassifiedBy(before: Event, after: Event, payload: Option<seq<byte>>, rules: seq<Rule>) {
    && after.(eventType := before.eventType, ruleId := before.ruleId, severity := before.severity) == before
    && (payload.Some? ==>
          forall k: nat :: FirstMatch(rules, payload.value, k) ==>
            && after.eventType == 1
            && after.ruleId == Fnv.Hash(Fnv.FNV32, Fnv.OFFSET32, rules[k].ruleId)
            && after.severity == SeverityOrdinal(rules[k].severity))
    && (payload.None? || !(exists k: nat :: FirstMatch(rules, payload.value, k)) ==> after == before)
  }

  lemma ClassifiedMeans(e: Event, payload: Option<seq<byte>>, rules: seq<Rule>)
    ensures ClassifiedBy(e, Classified(e, payload, rules), payload, rules)
  {
    if payload.Some? {
      var k := FirstMeans(rules, Occurs(payload.value));
      hide Contains, SeverityOrdinal;
      assert First(rules, Occurs(payload.value)).Some? ==> FirstMatch(rules, payload.value, k);
      forall i: nat | FirstMatch(rules, payload.value, i)
        ensures First(rules, Occurs(payload.value)).Some? && i == k
      {
        assert Occurs(payload.value)(rules[i]);
      }
    }
  }

  /** A rule is loaded exactly when it is in the file with an id and a pattern that are not empty. */
  lemma {:induction false} LoadedExactly(rules: seq<Rule>, r: Rule)
    ensures r in UsableRules(rules) <==> r in rules && r.ruleId != [] && r.matchPattern != []
  {
    if rules == [] {
    } else {
      var front, last := rules[..|rules| - 1], rules[|rules| - 1];
      LoadedExactly(front, r);
      assert rules == front + [last];
    }
  }

  /** What the first matching rule makes of an event. */
  function Classified(e: Event, payload: Option<seq<byte>>, active: seq<Rule>): (r: Event)
    ensures Sendable(e) ==> Sendable(r)
    ensures r.eventId == e.eventId
  {
    match payload
    case None => e
    case Some(bytes) =>
      match First(active, Occurs(bytes))
      case None => e
      case Some(rule) =>
        Fnv.ParamsInvertible();
        Fnv.HashBelow(Fnv.FNV32, Fnv.OFFSET32, rule.ruleId);
        e.(eventType := 1,
           ruleId := Fnv.Hash(Fnv.FNV32, Fnv.OFFSET32, rule.ruleId),
           severity := SeverityOrdinal(rule.severity))
  }

  method Classify(ev: EventVar, payload: Option<seq<byte>>, active: seq<Rule>)
    modifies ev
    ensures ev.e == Classified(old(ev.e), payload, active)
  {
    if payload.None? || |active| == 0 {
      return;
    }
    var bytes := payload.value;
    ghost var p := Occurs(bytes);
    for i := 0 to |active|
      invariant ev.e == old(ev.e)
      invariant First(active, p) == First(active[i..], p)
    {
      var rule := active[i];
      assert active[i..][1..] == active[i + 1..];
      if !Contains(bytes, rule.matchPattern) {
        continue;
      }
      ev.e := ev.e.(eventType := 1);
      var hash := Fnv.HashNoseRuleId(rule.ruleId);
      ev.e := ev.e.(ruleId := hash);
      ev.e := ev.e.(severity := SeverityOrdinal(rule.severity));
      return;
    }
  }

  /** An event classified by the loaded rules carries the first usable rule of the file whose pattern
      occurs in the payload, and is the unclassified event when there is none. */
  lemma ClassifiedByFile(e: Event, payload: seq<byte>, file: seq<Rule>)
    ensures var hit := First(file, UsableAnd(Occurs(payload)));
      var r := Classified(e, Some(payload), UsableRules(file));
      match hit
      case None => r == e
      case Some(rule) =>
        r.ruleId == Fnv.Hash(Fnv.FNV32, Fnv.OFFSET32, rule.ruleId)
        && r == e.(eventType := 1, ruleId := r.ruleId, severity := SeverityOrdinal(rule.severity))
  {
    FirstOfUsable(file, Occurs(payload));
  }
}
