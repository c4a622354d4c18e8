/** The enforcement display: bounded feeds, cumulative counts and the DEFCON level over a run. */
module Mouth {
  import opened Options
  import Sequences
  import Bridge

  function OrElse<T>(x: Option<T>, y: Option<T>): Option<T> {
    if x.Some? then x else y
  }

  function Or<T>(x: Option<T>, default: T): T {
    if x.Some? then x.value else default
  }

  // ---------- Reading a field out of a log line ----------

  /** Where sub first occurs in s. */
  function Find(s: string, sub: string): (r: Option<nat>)
    ensures r.Some? ==> r.value + |sub| <= |s|
  {
    if sub <= s then Some(0)
    else if s == "" then None
    else
      var r := Find(s[1..], sub);
      if r.Some? then Some(r.value + 1) else None
  }

  lemma OccursLater(s: string, sub: string, k: nat)
    requires s != "" && k >= 1
    ensures Sequences.OccursAt(s, sub, k) <==> Sequences.OccursAt(s[1..], sub, k - 1)
  {
    if k + |sub| <= |s| {
      Sequences.SliceOfRest(s, 1, k - 1, k - 1 + |sub|);
    }
  }

  lemma OccursHere(s: string, sub: string)
    ensures Sequences.OccursAt(s, sub, 0) <==> sub <= s
    ensures s == "" ==> forall k: nat :: Sequences.OccursAt(s, sub, k) ==> k == 0
  {}

  /** Find gives the first place where sub occurs, and nothing exactly if there is none. */
  lemma {:induction false} FindsPlace(s: string, sub: string, k: nat)
    ensures Find(s, sub).Some? ==> Sequences.OccursAt(s, sub, Find(s, sub).value)
    ensures Find(s, sub).Some? && k < Find(s, sub).value ==> !Sequences.OccursAt(s, sub, k)
    ensures Find(s, sub).None? ==> !Sequences.OccursAt(s, sub, k)
  {
    OccursHere(s, sub);
    hide Sequences.OccursAt;
    if sub <= s || s == "" {
    } else {
      FindsPlace(s[1..], sub, if k == 0 then 0 else k - 1);
      if k >= 1 {
        OccursLater(s, sub, k);
      }
      if Find(s, sub).Some? {
        OccursLater(s, sub, Find(s, sub).value);
      }
    }
  }

  /** Find gives the first place where sub occurs, if there is one. */
  lemma FindsFirst(s: string, sub: string)
    ensures Find(s, sub).Some? ==>
      Sequences.OccursAt(s, sub, Find(s, sub).value)
      && forall k: nat :: k < Find(s, sub).value ==> !Sequences.OccursAt(s, sub, k)
    ensures Find(s, sub).Some? <==> Sequences.Contains(s, sub)
  {
    hide Find, Sequences.OccursAt;
    forall k: nat
      ensures Find(s, sub).Some? && k < Find(s, sub).value ==> !Sequences.OccursAt(s, sub, k)
      ensures Find(s, sub).None? ==> !Sequences.OccursAt(s, sub, k)
    {
      FindsPlace(s, sub, k);
    }
    FindsPlace(s, sub, 0);
  }

  predicate IsSpace(c: char) {
    c == ' ' || c == '\t' || c == '\n' || c == '\r'
  }

  function TrimStart(s: string): string {
    if s != "" && IsSpace(s[0]) then TrimStart(s[1..]) else s
  }

  /** The leading decimal digits, if something other than a digit follows them. */
  function Digits(s: string): Option<string> {
    if s == "" then None
    else if '0' <= s[0] <= '9' then
      var rest := Digits(s[1..]);
      if rest.Some? then Some([s[0]] + rest.value) else None
    else Some("")
  }

  function QuotedField(line: string, field: string): Option<string> {
    var search := "\"" + field + "\":\"";
    var at := Find(line, search);
    if at.None? then None
    else
      var rest := line[at.value + |search|..];
      var end := Find(rest, "\"");
      if end.Some? then Some(rest[..end.value]) else None
  }

  function BareField(line: string, field: string): Option<string> {
    var search := "\"" + field + "\":";
    var at := Find(line, search);
    if at.None? then None
    else
      var rest := TrimStart(line[at.value + |search|..]);
      var digits := Digits(rest);
      if digits.Some? && digits.value != "" then digits
      else if "true" <= rest then Some("true")
      else if "false" <= rest then Some("false")
      else None
  }

  function Extract(line: string, field: string): Option<string> {
    OrElse(QuotedField(line, field), BareField(line, field))
  }

  /** A quoted field reads as what stands between the quotes, where its name occurs first. */
  lemma ReadsQuoted(before: string, field: string, value: string, after: string)
    requires '"' !in value
    requires forall k :: 0 <= k < |before| ==>
      !Sequences.OccursAt(before + "\"" + field + "\":\"" + value + "\"" + after, "\"" + field + "\":\"", k)
    ensures Extract(before + "\"" + field + "\":\"" + value + "\"" + after, field) == Some(value)
  {
    var search := "\"" + field + "\":\"";
    var rest := value + "\"" + after;
    var line := before + "\"" + field + "\":\"" + value + "\"" + after;
    assert line == before + search + rest;
    assert Sequences.OccursAt(line, search, |before|);
    FindsFirst(line, search);
    assert Find(line, search) == Some(|before|);
    assert line[|before| + |search|..] == rest;
    QuoteAfter(value, after);
    hide Find;
    assert rest[..|value|] == value;
  }

  /** A field that is not quoted reads as true, false or its digits, behind any space; the rest is missing. */
  lemma ReadsBare(line: string, field: string, k: nat)
    requires QuotedField(line, field).None? && Find(line, "\"" + field + "\":") == Some(k)
    ensures var rest := TrimStart(line[k + |field| + 3..]);
      && ("true" <= rest ==> Extract(line, field) == Some("true"))
      && ("false" <= rest ==> Extract(line, field) == Some("false"))
      && (rest != "" && '0' <= rest[0] <= '9' ==>
            Extract(line, field) == if Digits(rest).Some? then Digits(rest) else None)
  {
    var search := "\"" + field + "\":";
    assert |search| == |field| + 3;
    hide Find, TrimStart;
    var rest := TrimStart(line[k + |search|..]);
    if "true" <= rest {
      assert rest[0] == 't';
    } else if "false" <= rest {
      assert rest[0] == 'f';
    }
  }

  lemma {:induction false} DigitsMeans(digits: string, next: char, after: string)
    requires forall c :: c in digits ==> '0' <= c <= '9'
    requires !('0' <= next <= '9')
    ensures Digits(digits + [next] + after) == Some(digits)
  {
    var s := digits + [next] + after;
    if digits == "" {
    } else {
      assert forall c :: c in digits[1..] ==> c in digits;
      DigitsMeans(digits[1..], next, after);
      assert s[1..] == digits[1..] + [next] + after;
      assert s[0] == digits[0] && digits[0] in digits;
      assert digits == [digits[0]] + digits[1..];
    }
  }

  predicate Mentions(line: string, text: string) {
    Find(line, text).Some?
  }

  predicate IsBlank(line: string) {
    TrimStart(line) == ""
  }

  // ---------- What one line means ----------

  /** The receipt behind a line says the block was enforced and its host effect confirmed. */
  predicate ProvenBlock(line: string) {
    && OrElse(Extract(line, "receipt_status"), Extract(line, "status")) == Some("ENFORCED")
    && Extract(line, "host_effect_confirmed") == Some("true")
  }

  predicate IsBlockPolicy(policy: string) {
    policy == "Drop" || policy == "Block" || policy == "BLOCK"
  }

  datatype AlertEntry = AlertEntry(severity: string, source: string, action: string)

  /** The action column, from the policy, the status and whether the block is proven. */
  function AlertAction(policy: string, proven: bool, status: Option<string>): string {
    if IsBlockPolicy(policy) then if proven then "BLOCKED" else Or(status, "ENFORCEMENT_PENDING")
    else if policy == "Alert" || policy == "AlertOnly" then "ALERTED"
    else if policy == "Terminate" || policy == "Kill" then "TERMINATED"
    else policy
  }

  function AlertOf(line: string): AlertEntry {
    var policy := Or(OrElse(Extract(line, "policy"), Extract(line, "action")), "Log");
    AlertEntry(
      Or(Extract(line, "severity"), "Info"),
      Or(OrElse(OrElse(Extract(line, "source_ip"), Extract(line, "src_ip")), Extract(line, "attack_type")), "unknown"),
      AlertAction(policy, ProvenBlock(line), Extract(line, "status")))
  }

  /** The alert feed is meant to say BLOCKED only for proven blocks. It does so exactly when neither the
      policy itself nor, for an unproven block, the status text is the word BLOCKED. */
  lemma AlertSaysBlocked(policy: string, proven: bool, status: Option<string>)
    ensures (AlertAction(policy, proven, status) == "BLOCKED" ==> IsBlockPolicy(policy) && proven)
      <==> policy != "BLOCKED" && !(IsBlockPolicy(policy) && !proven && status == Some("BLOCKED"))
    ensures AlertAction("BLOCK", false, Some("BLOCKED")) == "BLOCKED"
  {}

  /** The log line {"policy":"BLOCKED"} proves nothing and is shown as BLOCKED. */
  lemma UnprovenLineSaysBlocked()
    ensures var line := "{\"policy\":\"BLOCKED\"}";
      AlertOf(line).action == "BLOCKED" && !ProvenBlock(line)
  {
    var line := "{\"policy\":\"BLOCKED\"}";
    hide Find;
    PolicyBlocked();
    assert Extract(line, "policy") == Some("BLOCKED");
    assert QuotedField(line, "host_effect_confirmed") == None;
    assert BareField(line, "host_effect_confirmed") == None;
  }

  lemma PolicyBlocked()
    ensures QuotedField("{\"policy\":\"BLOCKED\"}", "policy") == Some("BLOCKED")
  {
    hide Find;
    var search, rest := "\"policy\":\"", "BLOCKED\"}";
    assert "\"" + "policy" + "\":\"" == search;
    var line := "{" + search + rest;
    assert line == "{\"policy\":\"BLOCKED\"}";
    FindAfterBrace(search, rest);
    assert line[1 + |search|..] == rest;
    QuoteAfter("BLOCKED", "}");
    assert "BLOCKED" + "\"" + "}" == rest && rest[..7] == "BLOCKED";
    assert Find(line, search) == Some(1) && Find(rest, "\"") == Some(7);
  }

  lemma FindAfterBrace(sub: string, tail: string)
    requires sub != "" && sub[0] != '{'
    ensures Find("{" + sub + tail, sub) == Some(1)
  {
    var s := "{" + sub + tail;
    assert s[0] == '{' && s[1..] == sub + tail;
    assert s[..|sub|][0] == '{';
    assert sub <= s[1..];
    assert Find(s[1..], sub) == Some(0);
  }

  lemma {:induction false} QuoteAfter(word: string, tail: string)
    requires '"' !in word
    ensures Find(word + "\"" + tail, "\"") == Some(|word|)
  {
    var s := word + "\"" + tail;
    if word == "" {
      assert s[..1] == "\"";
    } else {
      QuoteAfter(word[1..], tail);
      assert s[1..] == word[1..] + "\"" + tail;
      assert s[0] == word[0];
    }
  }

  datatype Mitigation = Mitigation(action: string, target: string, reason: string)

  /** The mitigation a line adds: a proven block, or a termination. */
  function MitigationOf(line: string): Option<Mitigation> {
    var policy := Or(OrElse(Extract(line, "policy"), Extract(line, "action")), "");
    var isBlock := ProvenBlock(line) && IsBlockPolicy(policy);
    var target := Or(OrElse(Extract(line, "source_ip"), Extract(line, "src_ip")), "unknown");
    var reason := Or(OrElse(Extract(line, "attack_type"), Extract(line, "category")), "policy violation");
    if isBlock then Some(Mitigation("BLOCKED IP", target, reason))
    else if policy == "Terminate" || policy == "Kill" then Some(Mitigation("TERMINATED", target, reason))
    else None
  }

  /** What a line says, field by field: the policy or else the action; the receipt's status or else the status;
      the confirmation of the host effect; the address under its two names; the attack or else the category. */
  datatype Said = Said(
    policy: Option<string>, status: Option<string>, receipt: Option<string>, confirmed: bool,
    address: Option<string>, attack: Option<string>, category: Option<string>, severity: Option<string>)

  predicate Says(line: string, s: Said) {
    && s.policy == (if Extract(line, "policy").Some? then Extract(line, "policy") else Extract(line, "action"))
    && s.status == Extract(line, "status")
    && s.receipt == (if Extract(line, "receipt_status").Some? then Extract(line, "receipt_status") else s.status)
    && s.confirmed == (Extract(line, "host_effect_confirmed") == Some("true"))
    && s.address == (if Extract(line, "source_ip").Some? then Extract(line, "source_ip") else Extract(line, "src_ip"))
    && s.attack == Extract(line, "attack_type") && s.category == Extract(line, "category")
    && s.severity == Extract(line, "severity")
  }

  /** A mitigation is added exactly for a block policy with an enforced receipt and a confirmed effect, as
      BLOCKED IP, and for a termination; with the address, and with the attack or category as the reason. */
  lemma MitigationMeans(line: string, s: Said)
    requires Says(line, s)
    ensures var block := s.policy in {Some("Drop"), Some("Block"), Some("BLOCK")}
                         && s.receipt == Some("ENFORCED") && s.confirmed;
      var ends := s.policy in {Some("Terminate"), Some("Kill")};
      && (MitigationOf(line).Some? <==> block || ends)
      && (block ==> MitigationOf(line).value.action == "BLOCKED IP")
      && (ends ==> MitigationOf(line).value.action == "TERMINATED")
      && (block || ends ==>
            && MitigationOf(line).value.target == (if s.address.Some? then s.address.value else "unknown")
            && MitigationOf(line).value.reason == (if s.attack.Some? then s.attack.value
                                                   else if s.category.Some? then s.category.value
                                                   else "policy violation"))
  {
    hide Extract;
  }

  /** The alert column of a line, case by case. */
  lemma AlertMeans(line: string, s: Said)
    requires Says(line, s)
    ensures var a := AlertOf(line);
      && a.severity == (if s.severity.Some? then s.severity.value else "Info")
      && a.source == (if s.address.Some? then s.address.value else if s.attack.Some? then s.attack.value else "unknown")
      && (s.policy.None? ==> a.action == "Log")
      && (s.policy in {Some("Alert"), Some("AlertOnly")} ==> a.action == "ALERTED")
      && (s.policy in {Some("Terminate"), Some("Kill")} ==> a.action == "TERMINATED")
      && (s.policy in {Some("Drop"), Some("Block"), Some("BLOCK")} ==>
            a.action == if s.receipt == Some("ENFORCED") && s.confirmed then "BLOCKED"
                        else if s.status.Some? then s.status.value else "ENFORCEMENT_PENDING")
      && (s.policy.Some? && s.policy.value !in {"Alert", "AlertOnly", "Terminate", "Kill", "Drop", "Block", "BLOCK"} ==>
            a.action == s.policy.value)
  {
    hide Extract;
  }

  // ---------- Feeds ----------

  /** The last n elements, or all of them. */
  function Last<T>(s: seq<T>, n: nat): seq<T> {
    if |s| <= n then s else s[|s| - n..]
  }

  /** The last entries, newest at the end. */
  lemma LastMeans<T>(s: seq<T>, n: nat)
    ensures |Last(s, n)| == if |s| <= n then |s| else n
    ensures forall i :: 0 <= i < |Last(s, n)| ==> Last(s, n)[i] == s[|s| - |Last(s, n)| + i]
  {}

  class Feed<T> {
    const size: nat
    var entries: seq<T>
    ghost var pushed: seq<T>

    ghost predicate Valid()
      reads this
    {
      size > 0 && entries == Last(pushed, size)
    }

    constructor (size: nat)
      requires size > 0
      ensures Valid() && pushed == [] && this.size == size
    {
      this.size, entries, pushed := size, [], [];
    }

    method Push(entry: T)
      requires Valid()
      modifies this
      ensures Valid() && pushed == old(pushed) + [entry]
    {
      if |entries| >= size {
        entries := entries[1..];
      }
      entries := entries + [entry];
      pushed := pushed + [entry];
    }
  }

  // ---------- DEFCON ----------

  datatype Stats = Stats(total: nat, critical: nat, blocked: nat, kernel: nat)

  const NO_STATS: Stats := Stats(0, 0, 0, 0)

  function Defcon(s: Stats): (level: nat)
    ensures 1 <= level <= 5
  {
    if s.critical >= 10 || s.blocked >= 5 || s.kernel >= 3 then 1
    else if s.critical >= 5 || s.blocked >= 3 then 2
    else if s.total >= 5 || s.critical >= 1 then 3
    else if s.total >= 1 then 4
    else 5
  }

  /** The display and the bridge compute the same level from the same counts, except when one or two
      kernel threats are all that speaks for level 1. */
  lemma LevelsAgree(c: Bridge.Counters)
    ensures Bridge.Level(c) == Defcon(Stats(c.total, c.critical, c.blocked, c.kernel))
      <==> c.kernel == 0 || c.kernel >= 3 || c.critical >= 10 || c.blocked >= 5
  {}

  function CountLine(s: Stats, line: string): Stats {
    if IsBlank(line) then s
    else
      Stats(s.total + 1,
            s.critical + if Mentions(line, "\"Critical\"") then 1 else 0,
            s.blocked + if Mentions(line, "\"Drop\"") || Mentions(line, "\"Block\"") || Mentions(line, "\"BLOCK\"")
                        then 1 else 0,
            s.kernel + if Mentions(line, "\"Tier-3\"") || Mentions(line, "\"KERNEL_FILE\"")
                          || Mentions(line, "\"KERNEL_PROCESS\"") then 1 else 0)
  }

  /** A line counts once if it is not blank, and once more for each of three kinds of words it contains. */
  lemma CountMeans(s: Stats, line: string)
    ensures IsBlank(line) ==> CountLine(s, line) == s
    ensures !IsBlank(line) ==>
      var t := CountLine(s, line);
      && t.total == s.total + 1
      && t.critical == s.critical + (if Sequences.Contains(line, "\"Critical\"") then 1 else 0)
      && t.blocked == s.blocked + (if Sequences.Contains(line, "\"Drop\"") || Sequences.Contains(line, "\"Block\"")
                                      || Sequences.Contains(line, "\"BLOCK\"") then 1 else 0)
      && t.kernel == s.kernel + (if Sequences.Contains(line, "\"Tier-3\"")
                                    || Sequences.Contains(line, "\"KERNEL_FILE\"")
                                    || Sequences.Contains(line, "\"KERNEL_PROCESS\"") then 1 else 0)
  {
    hide Find, IsBlank, Sequences.Contains;
    FindsFirst(line, "\"Critical\"");
    FindsFirst(line, "\"Drop\"");
    FindsFirst(line, "\"Block\"");
    FindsFirst(line, "\"BLOCK\"");
    FindsFirst(line, "\"Tier-3\"");
    FindsFirst(line, "\"KERNEL_FILE\"");
    FindsFirst(line, "\"KERNEL_PROCESS\"");
  }

  lemma {:induction false} BlankMeans(line: string)
    ensures IsBlank(line) <==> forall c :: c in line ==> c in {' ', '\t', '\n', '\r'}
  {
    if line == "" {
    } else {
      BlankMeans(line[1..]);
      var spaces := {' ', '\t', '\n', '\r'};
      assert line[0] in line && forall c :: c in line[1..] ==> c in line;
      if line[0] in spaces && IsBlank(line[1..]) {
        forall c | c in line
          ensures c in spaces
        {
          if c != line[0] {
            var i :| 0 <= i < |line| && line[i] == c;
            assert line[1..][i - 1] == c && c in line[1..];
          }
        }
      }
    }
  }

  function CountLines(s: Stats, lines: seq<string>): Stats {
    if lines == [] then s else CountLine(CountLines(s, lines[..|lines| - 1]), lines[|lines| - 1])
  }

  function NonBlank(lines: seq<string>): seq<string> {
    if lines == [] then []
    else
      var l := lines[|lines| - 1];
      NonBlank(lines[..|lines| - 1]) + if IsBlank(l) then [] else [l]
  }

  function AddStats(s: Stats, t: Stats): Stats {
    Stats(s.total + t.total, s.critical + t.critical, s.blocked + t.blocked, s.kernel + t.kernel)
  }

  /** One record of the enforcement log. */
  datatype Record = Record(level: nat, previous: nat, action: string)

  function ActionWord(level: nat, previous: nat): string {
    if level < previous then "ESCALATE" else if level > previous then "DE-ESCALATE" else "HOLD"
  }

  /** The log of a run that stands at a level: escalations only, each from the last one's end or further
      down, since a record may have been lost. */
  predicate EscalationLog(log: seq<Record>, level: nat) {
    && (forall i :: 0 <= i < |log| ==> EscalatesFurther(log, i))
    && 1 <= level <= if log == [] then 5 else log[|log| - 1].level
  }

  predicate EscalatesFurther(log: seq<Record>, i: nat)
    requires i < |log|
  {
    && log[i].action == "ESCALATE" && 1 <= log[i].level < log[i].previous
    && log[i].previous <= if i == 0 then 5 else log[i - 1].level
  }

  lemma {:induction false} LogIsShort(log: seq<Record>, level: nat)
    requires EscalationLog(log, level)
    ensures |log| <= 5 - level <= 4
  {
    if log == [] {
    } else {
      var last := |log| - 1;
      var front := log[..last];
      forall i | 0 <= i < last
        ensures EscalatesFurther(front, i)
      {
        assert EscalatesFurther(log, i);
      }
      assert EscalatesFurther(log, last);
      LogIsShort(front, log[last].previous);
    }
  }

  lemma LogGrows(log: seq<Record>, previous: nat, level: nat)
    requires EscalationLog(log, previous) && 1 <= level < previous <= 5
    ensures EscalationLog(log, level)
    ensures EscalationLog(log + [Record(level, previous, ActionWord(level, previous))], level)
  {
    var longer := log + [Record(level, previous, ActionWord(level, previous))];
    forall i | 0 <= i < |log|
      ensures EscalatesFurther(longer, i)
    {
      assert EscalatesFurther(log, i);
    }
  }

  lemma {:induction false} CountAppend(s: Stats, x: seq<string>, y: seq<string>)
    ensures CountLines(s, x + y) == CountLines(CountLines(s, x), y)
  {
    if y == [] {
      assert x + y == x;
    } else {
      var front := y[..|y| - 1];
      assert (x + y)[..|x + y| - 1] == x + front;
      CountAppend(s, x, front);
    }
  }

  /** No count of a run exceeds its total, so a display that counted a kernel threat shows 4 or less. */
  lemma {:induction false} CountsBelowTotal(lines: seq<string>)
    ensures var s := CountLines(NO_STATS, lines);
      && s.critical <= s.total && s.blocked <= s.total && s.kernel <= s.total
      && (s.kernel > 0 ==> Defcon(s) <= 4)
  {
    if lines == [] {
    } else {
      hide IsBlank, Mentions;
      CountsBelowTotal(lines[..|lines| - 1]);
    }
  }

  /** A line that speaks of tier 3 and of nothing else that is counted. */
  predicate NamesOnlyTier3(line: string) {
    && !IsBlank(line) && Mentions(line, "\"Tier-3\"")
    && !Mentions(line, "\"Critical\"") && !Mentions(line, "\"Drop\"")
    && !Mentions(line, "\"Block\"") && !Mentions(line, "\"BLOCK\"")
  }

  /** Read first, every such line counts as one alert and one kernel threat: level 4 on the display. The event
      of such a finding, pushed first, is level 1 on the bridge. */
  lemma OneKernelThreatDisagrees(line: string)
    requires NamesOnlyTier3(line)
    ensures CountLine(NO_STATS, line) == Stats(1, 0, 0, 1) && Defcon(CountLine(NO_STATS, line)) == 4
    ensures Bridge.Level(Bridge.CountEvent(Bridge.NO_COUNTS, Bridge.ZERO_IPC.(tierResult := 3))) == 1
  {
    hide IsBlank, Mentions;
  }

  /** Such a line is {"tier":"Tier-3"}. */
  lemma Tier3Line()
    ensures NamesOnlyTier3("{\"tier\":\"Tier-3\"}")
  {
    hide IsBlank, Mentions;
    var line := "{\"tier\":\"Tier-3\"}";
    NoOtherLetters(line);
    MentionsTier3(line);
    WithoutInitial(line, "\"Critical\"", 'C');
    WithoutInitial(line, "\"Drop\"", 'D');
    WithoutInitial(line, "\"Block\"", 'B');
    WithoutInitial(line, "\"BLOCK\"", 'B');
  }

  lemma MentionsTier3(line: string)
    requires line == "{\"tier\":\"Tier-3\"}"
    ensures Mentions(line, "\"Tier-3\"")
  {
    hide Find;
    assert line == "{\"tier\":" + "\"Tier-3\"" + "}";
    FindsPart("{\"tier\":", "\"Tier-3\"", "}");
  }

  lemma NoOtherLetters(line: string)
    requires line == "{\"tier\":\"Tier-3\"}"
    ensures 'C' !in line && 'D' !in line && 'B' !in line && !IsBlank(line)
  {}

  lemma WithoutInitial(line: string, quoted: string, initial: char)
    requires |quoted| > 1 && quoted[1] == initial && initial !in line
    ensures !Mentions(line, quoted)
  {
    Absent(line, quoted, 1);
  }

  lemma {:induction false} FindsPart(before: string, sub: string, after: string)
    ensures Find(before + sub + after, sub).Some?
  {
    var s := before + sub + after;
    if before == "" {
      assert sub <= s;
    } else if sub == "" {
      assert sub <= s;
    } else {
      FindsPart(before[1..], sub, after);
      assert s[1..] == before[1..] + sub + after;
    }
  }

  lemma {:induction false} Absent(s: string, sub: string, i: nat)
    requires i < |sub| && sub[i] !in s
    ensures Find(s, sub) == None
  {
    if |sub| <= |s| {
      assert s[..|sub|][i] == s[i] != sub[i];
    }
    if s == "" {
    } else {
      Absent(s[1..], sub, i);
    }
  }

  lemma {:induction false} CountFromStart(s: Stats, lines: seq<string>)
    ensures CountLines(s, lines) == AddStats(s, CountLines(NO_STATS, lines))
  {
    if lines == [] {
      assert s == Stats(s.total, s.critical, s.blocked, s.kernel);
    } else {
      hide IsBlank, Mentions;
      CountFromStart(s, lines[..|lines| - 1]);
    }
  }

  lemma {:induction false} CountsGrow(s: Stats, lines: seq<string>)
    ensures var t := CountLines(s, lines);
      s.total <= t.total && s.critical <= t.critical && s.blocked <= t.blocked && s.kernel <= t.kernel
  {
    if lines == [] {
    } else {
      hide Mentions, IsBlank;
      CountsGrow(s, lines[..|lines| - 1]);
    }
  }

  function Alerts(lines: seq<string>): (es: seq<AlertEntry>)
    ensures |es| == |lines|
  {
    seq(|lines|, i requires 0 <= i < |lines| => AlertOf(lines[i]))
  }

  function Mitigations(lines: seq<string>): seq<Mitigation> {
    if lines == [] then []
    else
      var m := MitigationOf(lines[|lines| - 1]);
      Mitigations(lines[..|lines| - 1]) + if m.Some? then [m.value] else []
  }

  // ---------- A run: the lines each cycle read ----------

  function LinesOf(batches: seq<seq<string>>): seq<string> {
    if batches == [] then [] else LinesOf(batches[..|batches| - 1]) + batches[|batches| - 1]
  }

  function LevelAfter(batches: seq<seq<string>>): nat {
    Defcon(CountLines(NO_STATS, LinesOf(batches)))
  }

  function LevelChange(level: nat, previous: nat): Mitigation {
    Mitigation(if level < previous then "DEFCON ESCALATED" else "DEFCON DE-ESCALATED", "Level", "Threat level change")
  }

  /** Everything that went into the mitigation feed: cycle by cycle, what the new lines say, then the
      change of the level if there was one. */
  function MitigationRun(batches: seq<seq<string>>): seq<Mitigation> {
    if batches == [] then []
    else
      var front := batches[..|batches| - 1];
      MitigationRun(front) + Mitigations(batches[|batches| - 1])
      + if LevelAfter(batches) != LevelAfter(front) then [LevelChange(LevelAfter(batches), LevelAfter(front))] else []
  }

  /** Whenever the level changed, the feed is told of an escalation. */
  lemma ChangesEscalate(batches: seq<seq<string>>, batch: seq<string>)
    ensures var before, after := LevelAfter(batches), LevelAfter(batches + [batch]);
      && after <= before
      && (after != before ==>
            MitigationRun(batches + [batch])
            == MitigationRun(batches) + Mitigations(batch)
               + [Mitigation("DEFCON ESCALATED", "Level", "Threat level change")])
      && (after == before ==> MitigationRun(batches + [batch]) == MitigationRun(batches) + Mitigations(batch))
  {
    hide Mitigations, MitigationRun, CountLines, LinesOf;
    NextBatch(batches, batch);
    CountAppend(NO_STATS, LinesOf(batches), batch);
    CountsGrow(CountLines(NO_STATS, LinesOf(batches)), batch);
    LevelFalls(CountLines(NO_STATS, LinesOf(batches)), CountLines(NO_STATS, LinesOf(batches) + batch));
  }

  /** Over any run the feed is told of a blocked address exactly when a line was read that proves it. */
  lemma {:induction false} BlockedExactlyWhenProven(batches: seq<seq<string>>, m: Mitigation)
    requires m.action == "BLOCKED IP"
    ensures m in MitigationRun(batches)
      <==> exists l :: l in LinesOf(batches) && ProvenBlock(l) && MitigationOf(l) == Some(m)
  {
    hide LevelAfter, Mitigations, MitigationOf, ProvenBlock;
    if batches == [] {
    } else {
      var front, last := batches[..|batches| - 1], batches[|batches| - 1];
      BlockedExactlyWhenProven(front, m);
      FromLines(last, m);
      assert m != LevelChange(LevelAfter(batches), LevelAfter(front)) by {
        assert "BLOCKED IP"[0] != "DEFCON ESCALATED"[0] && "BLOCKED IP"[0] != "DEFCON DE-ESCALATED"[0];
      }
      assert forall l :: l in LinesOf(batches) <==> l in LinesOf(front) || l in last;
    }
  }

  lemma {:induction false} FromLines(lines: seq<string>, m: Mitigation)
    requires m.action == "BLOCKED IP"
    ensures m in Mitigations(lines) <==> exists l :: l in lines && ProvenBlock(l) && MitigationOf(l) == Some(m)
  {
    hide MitigationOf, ProvenBlock;
    if lines == [] {
    } else {
      var front, last := lines[..|lines| - 1], lines[|lines| - 1];
      FromLines(front, m);
      ProvenIfBlocked(last);
      assert forall l :: l in lines <==> l in front || l == last;
    }
  }

  lemma MitigationsSnoc(lines: seq<string>, line: string)
    ensures Mitigations(lines + [line])
      == Mitigations(lines) + if MitigationOf(line).Some? then [MitigationOf(line).value] else []
  {
    hide MitigationOf;
    assert (lines + [line])[..|lines|] == lines;
  }

  lemma NextBatch(batches: seq<seq<string>>, batch: seq<string>)
    ensures LinesOf(batches + [batch]) == LinesOf(batches) + batch
    ensures var all := batches + [batch];
      MitigationRun(all) == MitigationRun(batches) + Mitigations(batch)
        + if LevelAfter(all) != LevelAfter(batches) then [LevelChange(LevelAfter(all), LevelAfter(batches))] else []
  {
    hide LevelAfter, Mitigations, LevelChange;
    assert (batches + [batch])[..|batches|] == batches;
  }

  class Mouth {
    var stats: Stats
    var prevLevel: nat
    var log: seq<Record>
    const alerts: Feed<AlertEntry>
    const mitigations: Feed<Mitigation>
    ghost var batches: seq<seq<string>>

    /** What holds after every cycle: counts, feeds and level are those of all lines read so far, and the
        enforcement log is a descending chain of escalations that ends no lower than that level. */
    ghost predicate Valid()
      reads this, alerts, mitigations
    {
      && alerts.Valid() && alerts.size == 8 && alerts.pushed == Alerts(LinesOf(batches))
      && mitigations.Valid() && mitigations.size == 6 && mitigations.pushed == MitigationRun(batches)
      && stats == CountLines(NO_STATS, LinesOf(batches))
      && prevLevel == Defcon(stats) && EscalationLog(log, prevLevel)
    }

    constructor ()
      ensures Valid() && batches == [] && log == []
      ensures fresh(alerts) && fresh(mitigations)
    {
      stats, prevLevel, log, batches := NO_STATS, 5, [], [];
      alerts := new Feed<AlertEntry>(8);
      mitigations := new Feed<Mitigation>(6);
    }

    /** The tail reader on the text it found: blank lines are skipped, the others counted. */
    method ReadNewEntries(raw: seq<string>) returns (counted: Stats, newLines: seq<string>)
      ensures newLines == NonBlank(raw) && counted == CountLines(NO_STATS, newLines)
    {
      hide IsBlank, CountLine, CountLines, NonBlank;
      NoLines();
      counted, newLines := NO_STATS, [];
      for i := 0 to |raw|
        invariant newLines == NonBlank(raw[..i]) && counted == CountLines(NO_STATS, newLines)
      {
        NextLine(raw[..i], raw[i]);
        assert raw[..i + 1] == raw[..i] + [raw[i]];
        if IsBlank(raw[i]) {
          continue;
        }
        counted := CountLine(counted, raw[i]);
        newLines := newLines + [raw[i]];
      }
      assert raw[..|raw|] == raw;
    }

    /** One turn of the main loop; text is None while the log cannot be opened. */
    method Cycle(text: Option<seq<string>>)
      requires Valid()
      modifies this, alerts, mitigations
      ensures Valid()
      ensures batches == old(batches) + [if text.Some? then NonBlank(text.value) else []]
      ensures prevLevel <= old(prevLevel)
      ensures log == old(log)
        || (prevLevel != old(prevLevel) && log == old(log) + [Record(prevLevel, old(prevLevel), "ESCALATE")])
      ensures |log| <= 4
    {
      hide MitigationOf, AlertOf, EscalationLog, CountLines, Last, Mitigations, MitigationRun, LinesOf, NonBlank;
      ghost var batch: seq<string> := [];
      if text.Some? {
        var counted, newLines := ReadNewEntries(text.value);
        batch := newLines;
        CountAppend(NO_STATS, LinesOf(batches), newLines);
        CountFromStart(stats, newLines);
        CountsGrow(stats, newLines);
        stats := AddStats(stats, counted);
        FeedLines(newLines);
        AlertsAppend(LinesOf(batches), newLines);
      } else {
        NothingNew(LinesOf(batches));
      }
      NextBatch(batches, batch);
      batches := batches + [batch];
      var level := Defcon(stats);
      LevelFalls(old(stats), stats);
      if level != prevLevel {
        LogGrows(log, prevLevel, level);
        var written: bool := *;
        if written {
          log := log + [Record(level, prevLevel, ActionWord(level, prevLevel))];
        }
        mitigations.Push(LevelChange(level, prevLevel));
      }
      prevLevel := level;
      LogIsShort(log, prevLevel);
    }

    /** The new lines go into both feeds. */
    method FeedLines(newLines: seq<string>)
      requires alerts.Valid() && mitigations.Valid()
      modifies alerts, mitigations
      ensures alerts.Valid() && alerts.pushed == old(alerts.pushed) + Alerts(newLines)
      ensures mitigations.Valid() && mitigations.pushed == old(mitigations.pushed) + Mitigations(newLines)
    {
      hide MitigationOf, AlertOf, Last, Mitigations;
      NothingNew([]);
      for i := 0 to |newLines|
        invariant alerts.Valid() && alerts.pushed == old(alerts.pushed) + Alerts(newLines[..i])
        invariant mitigations.Valid() && mitigations.pushed == old(mitigations.pushed) + Mitigations(newLines[..i])
      {
        var line := newLines[i];
        assert newLines[..i + 1] == newLines[..i] + [line];
        MitigationsSnoc(newLines[..i], line);
        AlertsAppend(newLines[..i], [line]);
        alerts.Push(AlertOf(line));
        var m := MitigationOf(line);
        if m.Some? {
          mitigations.Push(m.value);
        }
      }
      assert newLines[..|newLines|] == newLines;
    }
  }

  lemma NoLines()
    ensures NonBlank([]) == [] && CountLines(NO_STATS, []) == NO_STATS
  {}

  lemma NextLine(raw: seq<string>, line: string)
    ensures NonBlank(raw + [line]) == NonBlank(raw) + if IsBlank(line) then [] else [line]
    ensures CountLines(NO_STATS, NonBlank(raw) + [line]) == CountLine(CountLines(NO_STATS, NonBlank(raw)), line)
  {
    hide IsBlank, CountLine;
    assert (raw + [line])[..|raw|] == raw;
    assert (NonBlank(raw) + [line])[..|NonBlank(raw)|] == NonBlank(raw);
  }

  lemma AlertsAppend(x: seq<string>, y: seq<string>)
    ensures Alerts(x + y) == Alerts(x) + Alerts(y)
    ensures |y| == 1 ==> Alerts(y) == [AlertOf(y[0])]
  {
    hide AlertOf;
  }

  lemma NothingNew(lines: seq<string>)
    ensures lines + [] == lines && Alerts([]) == [] && Mitigations([]) == []
  {}

  lemma ProvenIfBlocked(line: string)
    ensures MitigationOf(line).Some? && MitigationOf(line).value.action == "BLOCKED IP" ==> ProvenBlock(line)
  {
    hide Extract;
    assert "BLOCKED IP" != "TERMINATED";
  }

  lemma LevelFalls(s: Stats, t: Stats)
    requires s.total <= t.total && s.critical <= t.critical && s.blocked <= t.blocked && s.kernel <= t.kernel
    ensures Defcon(t) <= Defcon(s)
  {}
}
