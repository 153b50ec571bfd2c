/** The prune list: parsing its textual form, printing it, and that parsing undoes printing. */
module PruneRules {
  import opened EntryLayout

  const UID_ALL := 0xFFFF_FFFF        // (uid_t)-1
  const UID_RANGE := 0x1_0000_0000
  const INT_MAX := 0x7FFF_FFFF

  type Uid = x: int | 0 <= x < UID_RANGE

  /** `pid` is None for any process; a uid of UID_ALL stands for any user. */
  datatype Rule = Rule(uid: Uid, pid: Option<nat>)
  datatype Rules = Rules(worstUid: bool, worstPidOfSystem: bool, low: seq<Rule>, high: seq<Rule>)

  /** The signed arithmetic for a pid may overflow, which the language leaves undefined. */
  datatype Outcome = Parsed(rules: Rules) | Malformed | Undefined

  const EMPTY := Rules(false, false, [], [])
  const WORST_SYSTEM_PID := "1000/!"

  predicate IsSpace(c: char) { c == ' ' || 9 as char <= c <= 13 as char }
  predicate IsDigit(c: char) { '0' <= c <= '9' }
  function DigitOf(c: char): nat
    requires IsDigit(c)
  {
    c as int - '0' as int
  }

  /** How many digits the text starts with. */
  function Digits(s: string): (n: nat)
    ensures n <= |s| && (n < |s| ==> !IsDigit(s[n])) && forall i :: 0 <= i < n ==> IsDigit(s[i])
  {
    if s == [] || !IsDigit(s[0]) then 0 else 1 + Digits(s[1..])
  }

  /** uid_t arithmetic wraps around. */
  function UidValue(s: string): Uid
    requires forall i :: 0 <= i < |s| ==> IsDigit(s[i])
  {
    if s == [] then 0 else (UidValue(s[..|s| - 1]) * 10 + DigitOf(s[|s| - 1])) % UID_RANGE
  }

  /** pid * 10 + *str - '0', evaluated from the left in an int. */
  function PidValue(s: string): Option<nat>
    requires forall i :: 0 <= i < |s| ==> IsDigit(s[i])
  {
    if s == [] then Some(0)
    else
      var before := PidValue(s[..|s| - 1]);
      if before.None? || before.value * 10 + s[|s| - 1] as int > INT_MAX then None
      else Some(before.value * 10 + DigitOf(s[|s| - 1]))
  }

  predicate StartsWith(s: string, p: string) { |p| <= |s| && s[..|p|] == p }

  /** A rule at the start of the text, and the rest of the text after it. */
  datatype RuleOutcome = Read(rule: Rule, rest: string) | NoRule | PidOverflow

  function ParseRule(s: string): (r: RuleOutcome)
    ensures r.Read? ==> |r.rest| < |s| && (r.rest == [] || IsSpace(r.rest[0])) && (r.rule.uid != UID_ALL || r.rule.pid.Some?)
  {
    var n := Digits(s);
    var uid := if n > 0 then UidValue(s[..n]) else UID_ALL;
    match ParsePid(s[n..])
    case TooBig => PidOverflow
    case Pid(pid, rest) =>
      if uid == UID_ALL && pid.None? then NoRule
      else if rest != [] && !IsSpace(rest[0]) then NoRule
      else Read(Rule(uid, pid), rest)
  }

  datatype PidOutcome = Pid(pid: Option<nat>, rest: string) | TooBig

  /** A slash, and the digits after it if there are any. */
  function ParsePid(t: string): (r: PidOutcome)
    ensures r.Pid? ==> |r.rest| <= |t| && (r.pid.Some? ==> |r.rest| < |t|)
  {
    if t == [] || t[0] != '/' then Pid(None, t)
    else
      var u := t[1..];
      var m := Digits(u);
      if m == 0 then Pid(None, u)
      else
        var pid := PidValue(u[..m]);
        if pid.None? then TooBig else Pid(pid, u[m..])
  }

  /** After something that must stand alone: the end, or a space and more. */
  function Continue(s: string, rules: Rules): Outcome
    decreases |s|, 1
  {
    if s == [] then Parsed(rules) else if IsSpace(s[0]) then Parse(s[1..], rules) else Malformed
  }

  /** PruneList::Init on a filter string. */
  function Parse(s: string, rules: Rules): Outcome
    decreases |s|, 0
  {
    if s == [] then Parsed(rules)
    else if IsSpace(s[0]) then Parse(s[1..], rules)
    else if s[0] == '~' || s[0] == '!' then
      var t := s[1..];
      if t != [] && t[0] == '!' then Continue(t[1..], rules.(worstUid := true))
      else if StartsWith(t, WORST_SYSTEM_PID) then Continue(t[|WORST_SYSTEM_PID|..], rules.(worstPidOfSystem := true))
      else if t == [] then Malformed
      else
        match ParseRule(t)
        case Read(rule, rest) => Continue(rest, rules.(high := rules.high + [rule]))
        case NoRule => Malformed
        case PidOverflow => Undefined
    else
      match ParseRule(s)
      case Read(rule, rest) => Continue(rest, rules.(low := rules.low + [rule]))
      case NoRule => Malformed
      case PidOverflow => Undefined
  }

  // ---- Printing ----

  function Decimal(n: nat): (s: string)
    ensures |s| > 0 && forall i :: 0 <= i < |s| ==> IsDigit(s[i])
  {
    var d := [(n % 10 + '0' as int) as char];
    if n < 10 then d else Decimal(n / 10) + d
  }

  function FormatRule(r: Rule): string
  {
    if r.uid != UID_ALL then Decimal(r.uid) + (if r.pid.Some? then "/" + Decimal(r.pid.value) else "")
    else if r.pid.Some? then "/" + Decimal(r.pid.value)
    else "/"
  }

  /** The rules as words, in the order they are printed. */
  datatype Word = WorstUid | WorstPidOfSystem | Low(rule: Rule) | High(rule: Rule)

  function Text(w: Word): string
  {
    match w
    case WorstUid => "~!"
    case WorstPidOfSystem => "~1000/!"
    case Low(r) => FormatRule(r)
    case High(r) => "~" + FormatRule(r)
  }

  function Words(rules: Rules): seq<Word>
  {
    (if rules.worstUid then [WorstUid] else []) + (if rules.worstPidOfSystem then [WorstPidOfSystem] else [])
    + seq(|rules.low|, i requires 0 <= i < |rules.low| => Low(rules.low[i]))
    + seq(|rules.high|, i requires 0 <= i < |rules.high| => High(rules.high[i]))
  }

  /** Joined by single spaces. */
  function Join(ws: seq<Word>): string
  {
    if ws == [] then "" else if |ws| == 1 then Text(ws[0]) else Text(ws[0]) + " " + Join(ws[1..])
  }

  function Format(rules: Rules): string { Join(Words(rules)) }

  // ---- Reading numbers back ----

  lemma {:induction false} UidReadsBack(n: Uid)
    ensures UidValue(Decimal(n)) == n
  {
    var s := Decimal(n);
    if n >= 10 {
      assert s[..|s| - 1] == Decimal(n / 10);
      UidReadsBack(n / 10);
    } else {
      assert s[..0] == [];
    }
  }

  const PID_LIMIT := INT_MAX - '0' as int

  lemma {:induction false} PidReadsBack(n: nat)
    requires n <= PID_LIMIT
    ensures PidValue(Decimal(n)) == Some(n)
  {
    var s := Decimal(n);
    if n >= 10 {
      assert s[..|s| - 1] == Decimal(n / 10);
      PidReadsBack(n / 10);
    } else {
      assert s[..0] == [];
    }
  }

  /** Every pid that was read without overflow is small enough to be read again. */
  lemma PidBound(s: string)
    requires (forall i :: 0 <= i < |s| ==> IsDigit(s[i])) && PidValue(s).Some?
    ensures PidValue(s).value <= PID_LIMIT
  {
  }

  lemma {:induction false} DigitsOf(a: string, b: string)
    requires (forall i :: 0 <= i < |a| ==> IsDigit(a[i])) && (b == [] || !IsDigit(b[0]))
    ensures Digits(a + b) == |a|
  {
    if a == [] {
      assert a + b == b;
    } else {
      assert (a + b)[1..] == a[1..] + b;
      DigitsOf(a[1..], b);
    }
  }

  predicate Good(r: Rule) { (r.uid != UID_ALL || r.pid.Some?) && (r.pid.Some? ==> r.pid.value <= PID_LIMIT) }

  predicate Stands(rest: string) { rest == [] || rest[0] == ' ' }

  function FormatPid(pid: Option<nat>): string { if pid.Some? then "/" + Decimal(pid.value) else "" }

  lemma PidPart(pid: Option<nat>, rest: string)
    requires (pid.Some? ==> pid.value <= PID_LIMIT) && Stands(rest)
    ensures ParsePid(FormatPid(pid) + rest) == Pid(pid, rest)
  {
    hide PidValue, Decimal, Digits;
    var t := FormatPid(pid) + rest;
    if pid.Some? {
      var p := Decimal(pid.value);
      DigitsOf(p, rest);
      PidReadsBack(pid.value);
      assert t[1..] == p + rest;
      assert (p + rest)[..|p|] == p && (p + rest)[|p|..] == rest;
    } else {
      assert t == rest;
    }
  }

  lemma RuleParts(r: Rule, rest: string)
    requires Good(r) && Stands(rest)
    ensures FormatRule(r) == (if r.uid != UID_ALL then Decimal(r.uid) else []) + FormatPid(r.pid)
    ensures var t := FormatPid(r.pid) + rest; t == [] || !IsDigit(t[0])
  {
  }

  /** A printed rule reads back as itself, up to the space behind it. */
  lemma RuleReadsBack(r: Rule, rest: string)
    requires Good(r) && Stands(rest)
    ensures ParseRule(FormatRule(r) + rest) == Read(r, rest)
  {
    hide UidValue, Decimal, Digits, ParsePid, FormatRule, FormatPid;
    var s, t := FormatRule(r) + rest, FormatPid(r.pid) + rest;
    PidPart(r.pid, rest);
    var u := if r.uid != UID_ALL then Decimal(r.uid) else [];
    RuleParts(r, rest);
    assert s == u + t;
    DigitsOf(u, t);
    assert s[..|u|] == u && s[|u|..] == t;
    if r.uid != UID_ALL { UidReadsBack(r.uid); }
  }

  /** What a word adds. */
  function Applied(rules: Rules, w: Word): Rules
  {
    match w
    case WorstUid => rules.(worstUid := true)
    case WorstPidOfSystem => rules.(worstPidOfSystem := true)
    case Low(r) => rules.(low := rules.low + [r])
    case High(r) => rules.(high := rules.high + [r])
  }

  predicate GoodWord(w: Word) { (w.Low? || w.High?) ==> Good(w.rule) }

  /** A printed rule is digits and slashes, so it cannot be taken for one of the special forms. */
  lemma PlainRule(r: Rule, rest: string)
    requires Good(r) && Stands(rest)
    ensures var s := FormatRule(r) + rest;
      s != [] && !IsSpace(s[0]) && s[0] != '~' && s[0] != '!' && !StartsWith(s, WORST_SYSTEM_PID)
  {
    hide Decimal;
    var f := FormatRule(r);
    var s := f + rest;
    assert forall i :: 0 <= i < |f| ==> IsDigit(f[i]) || f[i] == '/';
    NotSpecial(s, |f|);
  }

  lemma NotSpecial(s: string, n: nat)
    requires n <= |s| && (forall i :: 0 <= i < n ==> IsDigit(s[i]) || s[i] == '/') && (n < |s| ==> s[n] == ' ')
    ensures !StartsWith(s, WORST_SYSTEM_PID)
  {
    if |s| >= 6 {
      var i := if n < 6 then n else 5;
      assert s[..6][i] == s[i];
      assert i == n ==> s[i] == ' ';
    }
  }

  lemma HighReadsBack(r: Rule, rest: string, rules: Rules)
    requires Good(r) && Stands(rest)
    ensures Parse("~" + FormatRule(r) + rest, rules) == Continue(rest, rules.(high := rules.high + [r]))
  {
    hide ParseRule, FormatRule;
    var s := "~" + FormatRule(r) + rest;
    PlainRule(r, rest);
    RuleReadsBack(r, rest);
    assert s[0] == '~' && s[1..] == FormatRule(r) + rest;
  }

  lemma SystemReadsBack(rest: string, rules: Rules)
    requires Stands(rest)
    ensures Parse("~1000/!" + rest, rules) == Continue(rest, rules.(worstPidOfSystem := true))
  {
    hide ParseRule;
    var s := "~1000/!" + rest;
    assert s[0] == '~' && s[1..] == WORST_SYSTEM_PID + rest && s[1..][0] == '1';
    assert s[1..][..6] == WORST_SYSTEM_PID && s[1..][6..] == rest;
  }

  lemma WordReadsBack(w: Word, rest: string, rules: Rules)
    requires GoodWord(w) && Stands(rest)
    ensures Parse(Text(w) + rest, rules) == Continue(rest, Applied(rules, w))
  {
    hide ParseRule, Parse, Continue;
    match w
    case WorstUid => WorstReadsBack(rest, rules);
    case WorstPidOfSystem => SystemReadsBack(rest, rules);
    case Low(r) => LowReadsBack(r, rest, rules);
    case High(r) => HighReadsBack(r, rest, rules);
  }

  lemma WorstReadsBack(rest: string, rules: Rules)
    ensures Parse("~!" + rest, rules) == Continue(rest, rules.(worstUid := true))
  {
    hide ParseRule;
    var s := "~!" + rest;
    assert s[0] == '~' && s[1..][0] == '!' && s[1..][1..] == rest;
  }

  lemma LowReadsBack(r: Rule, rest: string, rules: Rules)
    requires Good(r) && Stands(rest)
    ensures Parse(FormatRule(r) + rest, rules) == Continue(rest, rules.(low := rules.low + [r]))
  {
    hide ParseRule, FormatRule;
    PlainRule(r, rest);
    RuleReadsBack(r, rest);
  }

  function AppliedAll(rules: Rules, ws: seq<Word>): Rules
    decreases |ws|
  {
    if ws == [] then rules else AppliedAll(Applied(rules, ws[0]), ws[1..])
  }

  lemma {:induction false} WordsReadBack(ws: seq<Word>, rules: Rules)
    requires forall i :: 0 <= i < |ws| ==> GoodWord(ws[i])
    ensures Parse(Join(ws), rules) == Parsed(AppliedAll(rules, ws))
    decreases |ws|
  {
    hide ParseRule, Text;
    if ws != [] {
      if |ws| == 1 {
        assert Join(ws) == Text(ws[0]) + [];
        WordReadsBack(ws[0], [], rules);
        assert ws[1..] == [];
      } else {
        var rest := " " + Join(ws[1..]);
        assert Join(ws) == Text(ws[0]) + rest;
        assert rest[1..] == Join(ws[1..]);
        WordReadsBack(ws[0], rest, rules);
        WordsReadBack(ws[1..], Applied(rules, ws[0]));
      }
    }
  }

  lemma {:induction false} AppliedConcat(rules: Rules, a: seq<Word>, b: seq<Word>)
    ensures AppliedAll(rules, a + b) == AppliedAll(AppliedAll(rules, a), b)
    decreases |a|
  {
    if a == [] {
      assert a + b == b;
    } else {
      assert (a + b)[1..] == a[1..] + b;
      AppliedConcat(Applied(rules, a[0]), a[1..], b);
    }
  }

  function Lows(rs: seq<Rule>): seq<Word> { seq(|rs|, i requires 0 <= i < |rs| => Low(rs[i])) }
  function Highs(rs: seq<Rule>): seq<Word> { seq(|rs|, i requires 0 <= i < |rs| => High(rs[i])) }

  lemma {:induction false} ListsApplied(rules: Rules, rs: seq<Rule>)
    ensures AppliedAll(rules, Lows(rs)) == rules.(low := rules.low + rs)
    ensures AppliedAll(rules, Highs(rs)) == rules.(high := rules.high + rs)
    decreases |rs|
  {
    if rs != [] {
      assert Lows(rs)[1..] == Lows(rs[1..]) && Highs(rs)[1..] == Highs(rs[1..]);
      ListsApplied(rules.(low := rules.low + [rs[0]]), rs[1..]);
      ListsApplied(rules.(high := rules.high + [rs[0]]), rs[1..]);
      assert rules.low + [rs[0]] + rs[1..] == rules.low + rs && rules.high + [rs[0]] + rs[1..] == rules.high + rs;
    } else {
      assert rules.low + [] == rules.low && rules.high + [] == rules.high;
    }
  }

  lemma WordsApplied(rules: Rules)
    ensures AppliedAll(EMPTY, Words(rules)) == rules
  {
    var a := (if rules.worstUid then [WorstUid] else []) + (if rules.worstPidOfSystem then [WorstPidOfSystem] else []);
    var b, c := Lows(rules.low), Highs(rules.high);
    assert Words(rules) == a + b + c;
    AppliedConcat(EMPTY, a + b, c);
    AppliedConcat(EMPTY, a, b);
    var flags := EMPTY.(worstUid := rules.worstUid, worstPidOfSystem := rules.worstPidOfSystem);
    assert AppliedAll(EMPTY, a) == flags by { FlagsApplied(rules, a); }
    ListsApplied(flags, rules.low);
    ListsApplied(flags.(low := rules.low), rules.high);
    assert [] + rules.low == rules.low && [] + rules.high == rules.high;
  }

  lemma FlagsApplied(rules: Rules, a: seq<Word>)
    requires a == (if rules.worstUid then [WorstUid] else []) + (if rules.worstPidOfSystem then [WorstPidOfSystem] else [])
    ensures AppliedAll(EMPTY, a) == EMPTY.(worstUid := rules.worstUid, worstPidOfSystem := rules.worstPidOfSystem)
  {
    if a != [] {
      assert AppliedAll(EMPTY, a) == AppliedAll(Applied(EMPTY, a[0]), a[1..]);
      if |a| == 2 { assert a[1..] == [a[1]] && a[1..][1..] == []; }
    }
  }

  predicate AllGood(rules: Rules)
  {
    (forall i :: 0 <= i < |rules.low| ==> Good(rules.low[i])) && (forall i :: 0 <= i < |rules.high| ==> Good(rules.high[i]))
  }

  lemma RuleIsGood(s: string)
    ensures ParseRule(s).Read? ==> Good(ParseRule(s).rule)
  {
    var t := s[Digits(s)..];
    if t != [] && t[0] == '/' {
      var u := t[1..];
      var m := Digits(u);
      if m > 0 && PidValue(u[..m]).Some? { PidBound(u[..m]); }
    }
  }

  /** Whatever is parsed, the rules that result can be printed and parsed again. */
  lemma {:induction false} ParsedIsGood(s: string, rules: Rules)
    requires AllGood(rules)
    ensures Parse(s, rules).Parsed? ==> AllGood(Parse(s, rules).rules)
    decreases |s|, 0
  {
    hide ParseRule;
    if s == [] {
    } else if IsSpace(s[0]) {
      ParsedIsGood(s[1..], rules);
    } else if s[0] == '~' || s[0] == '!' {
      var t := s[1..];
      if t != [] && t[0] == '!' {
        ContinueIsGood(t[1..], rules.(worstUid := true));
      } else if StartsWith(t, WORST_SYSTEM_PID) {
        ContinueIsGood(t[|WORST_SYSTEM_PID|..], rules.(worstPidOfSystem := true));
      } else if t != [] && ParseRule(t).Read? {
        RuleIsGood(t);
        ContinueIsGood(ParseRule(t).rest, rules.(high := rules.high + [ParseRule(t).rule]));
      }
    } else if ParseRule(s).Read? {
      RuleIsGood(s);
      ContinueIsGood(ParseRule(s).rest, rules.(low := rules.low + [ParseRule(s).rule]));
    }
  }

  lemma {:induction false} ContinueIsGood(s: string, rules: Rules)
    requires AllGood(rules)
    ensures Continue(s, rules).Parsed? ==> AllGood(Continue(s, rules).rules)
    decreases |s|, 1
  {
    if s != [] && IsSpace(s[0]) { ParsedIsGood(s[1..], rules); }
  }

  lemma GoodReadsBack(rules: Rules)
    requires AllGood(rules)
    ensures Parse(Format(rules), EMPTY) == Parsed(rules)
  {
    hide Join, Parse;
    WordsReadBack(Words(rules), EMPTY);
    WordsApplied(rules);
  }

  /** Any text that parses gives rules whose printed form parses to the same rules, in the same order. */
  lemma RoundTrip(s: string)
    requires Parse(s, EMPTY).Parsed?
    ensures Parse(Format(Parse(s, EMPTY).rules), EMPTY) == Parse(s, EMPTY)
  {
    ParsedIsGood(s, EMPTY);
    GoodReadsBack(Parse(s, EMPTY).rules);
  }

  lemma DigitsAre(s: string, n: nat)
    requires n <= |s| && (forall i :: 0 <= i < n ==> IsDigit(s[i])) && (n < |s| ==> !IsDigit(s[n]))
    ensures Digits(s) == n
  {
    assert s == s[..n] + s[n..];
    DigitsOf(s[..n], s[n..]);
  }

  /** Once a pid has overflowed, more digits do not help. */
  lemma OverflowStays(t: string, m: nat)
    requires m <= |t| && (forall i :: 0 <= i < m ==> IsDigit(t[i])) && PidValue(t[..m]).None?
    ensures Digits(t) > 0 && PidValue(t[..Digits(t)]).None?
  {
    DigitsAtLeast(t, m);
    var d := t[..Digits(t)];
    assert d[..m] == t[..m];
    OverflowPrefix(d, m);
    NotNone();
    hide PidValue, Digits;
  }

  lemma NotNone()
    ensures PidValue([]).Some?
  {
  }

  lemma DigitsAtLeast(t: string, m: nat)
    requires m <= |t| && forall i :: 0 <= i < m ==> IsDigit(t[i])
    ensures Digits(t) >= m
  {
  }

  lemma {:induction false} OverflowPrefix(s: string, m: nat)
    requires m <= |s| && (forall i :: 0 <= i < |s| ==> IsDigit(s[i])) && PidValue(s[..m]).None?
    ensures PidValue(s).None?
  {
    if m < |s| {
      assert s[..|s| - 1][..m] == s[..m];
      OverflowPrefix(s[..|s| - 1], m);
    } else {
      assert s[..m] == s;
    }
  }

  // ---- The prune list object ----

  const DEFAULT_RULES := "~! ~1000/!"

  /** Where the filter text comes from: the caller, the system properties, or the built-in default. */
  function FilterText(str: Option<string>, roFilter: string, persistFilter: string): string
  {
    var given := if str.Some? && str.value == "default" then None else if str.Some? && str.value == "disable" then Some("") else str;
    var filter := if given.Some? then given.value else if persistFilter != "default" then persistFilter else roFilter;
    if filter == "default" then DEFAULT_RULES else if filter == "disable" then "" else filter
  }

  /**
   Which text is taken: the caller's own; if that is missing or "default", the persistent property; if that
   is "default", too, the read-only one; and if that also is, the built-in rules. "disable", wherever it comes
   from, means no rules.
   */
  lemma FilterCases(text: string, ro: string, persist: string)
    requires text != "default" && text != "disable"
    ensures FilterText(Some(text), ro, persist) == text && FilterText(Some("disable"), ro, persist) == ""
    ensures FilterText(Some("default"), ro, persist) == FilterText(None, ro, persist)
    ensures FilterText(None, ro, text) == text && FilterText(None, ro, "disable") == ""
    ensures FilterText(None, text, "default") == text && FilterText(None, "disable", "default") == ""
    ensures FilterText(None, "default", "default") == "~! ~1000/!"
  {
  }

  /** Any white space separates and any may come first; `!` means what `~` does; and what starts no rule is refused. */
  lemma ParseForms(c: char, t: string, rules: Rules)
    ensures c in " \t\n\r" || c == 11 as char || c == 12 as char ==> Parse([c] + t, rules) == Parse(t, rules)
    ensures Parse("!" + t, rules) == Parse("~" + t, rules)
    ensures c !in " \t\n\r~!/0123456789" && c != 11 as char && c != 12 as char ==> Parse([c] + t, rules) == Malformed
  {
    hide ParseRule;
    assert ([c] + t)[1..] == t && ("!" + t)[1..] == t && ("~" + t)[1..] == t;
    if c !in "/0123456789" { NoRuleHere(c, t); }
  }

  lemma NoRuleHere(c: char, t: string)
    requires c !in "/0123456789"
    ensures ParseRule([c] + t).NoRule?
  {
    hide UidValue, PidValue;
    assert Digits([c] + t) == 0 && ([c] + t)[0..] == [c] + t;
  }

  class PruneList {
    var low: seq<Rule>
    var high: seq<Rule>
    var worstUid: bool
    var worstPidOfSystem: bool

    function View(): Rules
      reads this
    {
      Rules(worstUid, worstPidOfSystem, low, high)
    }

    constructor (roFilter: string, persistFilter: string)
      ensures Parse(FilterText(None, roFilter, persistFilter), EMPTY).Parsed? ==> AllGood(View())
    {
      new;
      var _ := Init(None, roFilter, persistFilter);
    }

    /** Init: succeeds exactly on a well-formed text, and then holds the rules it lists. */
    method Init(str: Option<string>, roFilter: string, persistFilter: string) returns (ok: bool)
      modifies this
      ensures var outcome := Parse(FilterText(str, roFilter, persistFilter), EMPTY);
        (ok <==> outcome.Parsed?) && (ok ==> View() == outcome.rules && AllGood(View()))
    {
      hide ParseRule;
      ParsedIsGood(FilterText(str, roFilter, persistFilter), EMPTY);
      low, high, worstUid, worstPidOfSystem := [], [], false, false;
      var s := FilterText(str, roFilter, persistFilter);
      ghost var text := s;
      while s != []
        invariant Parse(text, EMPTY) == Parse(s, View())
        decreases |s|
      {
        if IsSpace(s[0]) {
          s := s[1..];
          continue;
        }
        var highPriority := s[0] == '~' || s[0] == '!';
        var t := if highPriority then s[1..] else s;
        if highPriority && t != [] && t[0] == '!' {
          worstUid := true;
          t := t[1..];
        } else if highPriority && StartsWith(t, WORST_SYSTEM_PID) {
          worstPidOfSystem := true;
          t := t[|WORST_SYSTEM_PID|..];
        } else if t == [] {
          return false;
        } else {
          var rule := ReadRule(t);
          if !rule.Read? {
            return false;
          }
          if highPriority {
            high := high + [rule.rule];
          } else {
            low := low + [rule.rule];
          }
          t := rule.rest;
        }
        if t == [] {
          return true;
        }
        if !IsSpace(t[0]) {
          return false;
        }
        s := t[1..];
      }
      ok := true;
    }

    method ReadRule(s: string) returns (r: RuleOutcome)
      ensures r == ParseRule(s)
    {
      hide UidValue, ParsePid;
      var uid, n := ReadUid(s);
      var p := ReadPid(s[n..]);
      if p.TooBig? {
        return PidOverflow;
      }
      if uid == UID_ALL && p.pid.None? {
        return NoRule;
      }
      if p.rest != [] && !IsSpace(p.rest[0]) {
        return NoRule;
      }
      r := Read(Rule(uid, p.pid), p.rest);
    }

    method ReadUid(s: string) returns (uid: Uid, n: nat)
      ensures n == Digits(s) && uid == if n > 0 then UidValue(s[..n]) else UID_ALL
    {
      uid, n := UID_ALL, 0;
      if n < |s| && IsDigit(s[n]) {
        uid := 0;
        while n < |s| && IsDigit(s[n])
          invariant n <= |s| && (forall i :: 0 <= i < n ==> IsDigit(s[i])) && uid == UidValue(s[..n])
        {
          assert s[..n + 1][..n] == s[..n];
          uid := (uid * 10 + DigitOf(s[n])) % UID_RANGE;
          n := n + 1;
        }
      }
      DigitsAre(s, n);
    }

    method ReadPid(t: string) returns (p: PidOutcome)
      ensures p == ParsePid(t)
    {
      if t == [] || t[0] != '/' {
        return Pid(None, t);
      }
      var u := t[1..];
      var m := 0;
      var pid: Option<nat> := None;
      if m < |u| && IsDigit(u[m]) {
        pid := Some(0);
        while m < |u| && IsDigit(u[m])
          invariant m <= |u| && (forall i :: 0 <= i < m ==> IsDigit(u[i])) && pid.Some? && pid == PidValue(u[..m])
        {
          assert u[..m + 1][..m] == u[..m];
          if pid.value * 10 + u[m] as int > INT_MAX {
            OverflowStays(u, m + 1);
            return TooBig;
          }
          pid := Some(pid.value * 10 + DigitOf(u[m]));
          m := m + 1;
        }
      }
      DigitsAre(u, m);
      p := Pid(pid, u[m..]);
    }

    /** Format, then Init on the result: the same flags and the same rules in the same order. */
    method FormatAndInit(roFilter: string, persistFilter: string) returns (ok: bool)
      requires AllGood(View())
      modifies this
      ensures ok && View() == old(View())
    {
      hide Parse, Format;
      GoodReadsBack(View());
      NotReserved(View());
      ok := Init(Some(Format(View())), roFilter, persistFilter);
    }

    /** The printed form is never one of the reserved words. */
    lemma NotReserved(rules: Rules)
      ensures FilterText(Some(Format(rules)), "", "") == Format(rules)
      ensures forall a, b :: FilterText(Some(Format(rules)), a, b) == Format(rules)
    {
      var s := Format(rules);
      if s != [] { FirstLetter(Words(rules)); }
    }

    lemma FirstLetter(ws: seq<Word>)
      requires Join(ws) != []
      ensures Join(ws)[0] != 'd'
    {
      assert Text(ws[0]) != [];
    }
  }
}
