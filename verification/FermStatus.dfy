/** modules/ferm/files/ferm_status.py: parsing iptables-save and ferm output, leaving out what other
    programs manage, and telling two rule sets apart. */
module FermStatus {
  import opened Common

  // ---------------------------------------------------------------- rules

  /** The attributes that a rule takes from its words, by option. */
  const ARGUMENT_SWITCH: map<string, string> := map[
    "-A" := "chain", "-p" := "protocol", "--protocol" := "protocol", "-s" := "source", "--source" := "source",
    "-d" := "destination", "--destination" := "destination", "--dport" := "dport", "--sport" := "sport",
    "-m" := "match", "--match" := "match", "--comment" := "comments", "--state" := "state", "--limit" := "limit",
    "--pkt-type" := "pkt_type", "-j" := "jump", "--jump" := "jump"]

  /** What rules are compared by: their attributes and their comments, not their raw text. */
  datatype Rule = Rule(attributes: map<string, string>, comments: seq<string>)

  /** The parts of rule parsing that only look at one value: ip_network, port names, replacements
      and quoted strings. None stands for an exception. */
  datatype Reader = Reader(normalise: (string, string) -> Option<string>, quoted: (seq<string>, nat) -> Option<string>)

  /** Attributes that are kept as they stand. */
  const PLAIN: set<string> := {"chain", "match", "jump", "state", "pkt_type"}

  /** One round of the word loop; None if the word cannot be dealt with. */
  function OneWord(rd: Reader, words: seq<string>, i: nat, r: Rule): Option<Rule>
    requires i < |words|
  {
    if words[i] !in ARGUMENT_SWITCH then Some(r)
    else if i + 1 >= |words| then None
    else if (words[i] == "-m" || words[i] == "--match") && (words[i + 1] == "tcp" || words[i + 1] == "udp") then Some(r)
    else if words[i] == "--comment" then
      var c := rd.quoted(words, i + 1);
      if c.None? then None else Some(r.(comments := r.comments + [c.value]))
    else Some(r.(attributes := r.attributes[ARGUMENT_SWITCH[words[i]] := words[i + 1]]))
  }

  /** The word loop of Rule._parse, from word `i` on. */
  function Words(rd: Reader, words: seq<string>, i: nat, r: Rule): Option<Rule>
    requires i <= |words|
    decreases |words| - i
  {
    if i == |words| then Some(r)
    else
      var next := OneWord(rd, words, i, r);
      if next.None? then None else Words(rd, words, i + 1, next.value)
  }

  /** The normalisation that follows. With match "state" the state is erased, and must be there. */
  function Normalised(rd: Reader, r: Rule): Option<Rule>
  {
    var a := r.attributes;
    if "match" in a && a["match"] == "state" && "state" !in a then None
    else if exists k :: k in a && k !in PLAIN && rd.normalise(k, a[k]).None? then None
    else
      Some(r.(attributes := map k | k in a && !(k == "state" && "match" in a && a["match"] == "state") ::
        if k in PLAIN then a[k] else rd.normalise(k, a[k]).value))
  }

  function RuleOf(rd: Reader, words: seq<string>): Option<Rule>
  {
    var r := Words(rd, words, 0, Rule(map[], []));
    if r.None? then None else Normalised(rd, r.value)
  }

  // ---------------------------------------------------------------- what a rule says

  /** The last number below `n` of the kind; -1 for none. */
  function Latest(n: nat, kind: int -> bool): (i: int)
    ensures i == -1 ==> forall j :: 0 <= j < n ==> !kind(j)
    ensures i != -1 ==> 0 <= i < n && kind(i) && forall j :: i < j < n ==> !kind(j)
  {
    if n == 0 then -1 else if kind(n - 1) then n - 1 else Latest(n - 1, kind)
  }

  predicate IsSwitch(words: seq<string>, i: int)
  {
    0 <= i < |words| && words[i] in ARGUMENT_SWITCH
  }

  /** Word `i` sets the attribute to the word after it: it is one of its options, and not one for the
      match "tcp" or "udp", which go with a protocol anyway. */
  predicate Sets(words: seq<string>, i: int, attribute: string)
  {
    && IsSwitch(words, i) && i + 1 < |words| && words[i] != "--comment" && ARGUMENT_SWITCH[words[i]] == attribute
    && !(attribute == "match" && words[i + 1] in {"tcp", "udp"})
  }

  /** The comments among the first `n` words, in their order. */
  function CommentsIn(rd: Reader, words: seq<string>, n: nat): seq<string>
    requires n <= |words|
  {
    if n == 0 then []
    else
      CommentsIn(rd, words, n - 1) +
      if words[n - 1] == "--comment" && rd.quoted(words, n).Some? then [rd.quoted(words, n).value] else []
  }

  ghost predicate AttributeIs(words: seq<string>, n: nat, attributes: map<string, string>, k: string)
  {
    var i := Latest(n, j => Sets(words, j, k));
    if i == -1 then k !in attributes else k in attributes && i + 1 < |words| && attributes[k] == words[i + 1]
  }

  /** What the first `n` words say: each attribute is the last one set, and the comments are all there. */
  ghost predicate Says(rd: Reader, words: seq<string>, n: nat, r: Rule)
    requires n <= |words|
  {
    r.comments == CommentsIn(rd, words, n) && forall k :: AttributeIs(words, n, r.attributes, k)
  }

  /** Every option has a word after it, and every comment can be read. */
  predicate Complete(rd: Reader, words: seq<string>, n: nat)
  {
    forall i: int :: 0 <= i < n && IsSwitch(words, i) ==>
      i + 1 < |words| && (words[i] == "--comment" ==> rd.quoted(words, i + 1).Some?)
  }

  lemma SwitchesByName()
    ensures forall w :: w in ARGUMENT_SWITCH ==> (ARGUMENT_SWITCH[w] == "match" <==> w == "-m" || w == "--match")
    ensures "--comment" in ARGUMENT_SWITCH
  {
  }

  lemma SaysNext(rd: Reader, words: seq<string>, i: nat, r: Rule, next: Rule, k: string)
    requires i < |words| && Says(rd, words, i, r)
    requires if Sets(words, i, k) then k in next.attributes && next.attributes[k] == words[i + 1]
             else k in next.attributes <==> k in r.attributes
    requires !Sets(words, i, k) && k in r.attributes ==> next.attributes[k] == r.attributes[k]
    ensures AttributeIs(words, i + 1, next.attributes, k)
  {
    assert AttributeIs(words, i, r.attributes, k);
  }

  lemma OneWordSets(rd: Reader, words: seq<string>, i: nat, r: Rule, k: string)
    requires i < |words| && Says(rd, words, i, r) && OneWord(rd, words, i, r).Some?
    ensures AttributeIs(words, i + 1, OneWord(rd, words, i, r).value.attributes, k)
  {
    SwitchesByName();
    SaysNext(rd, words, i, r, OneWord(rd, words, i, r).value, k);
  }

  lemma OneWordSays(rd: Reader, words: seq<string>, i: nat, r: Rule)
    requires i < |words| && Says(rd, words, i, r) && Complete(rd, words, i)
    ensures OneWord(rd, words, i, r).Some? <==> Complete(rd, words, i + 1)
    ensures OneWord(rd, words, i, r).Some? ==> Says(rd, words, i + 1, OneWord(rd, words, i, r).value)
  {
    SwitchesByName();
    assert IsSwitch(words, i) <==> words[i] in ARGUMENT_SWITCH;
    if OneWord(rd, words, i, r).Some? {
      var next := OneWord(rd, words, i, r).value;
      var m := i + 1;
      forall k ensures AttributeIs(words, m, next.attributes, k) { OneWordSets(rd, words, i, r, k); }
    }
  }

  lemma {:induction false} WordsFrom(rd: Reader, words: seq<string>, i: nat, r: Rule)
    requires i <= |words| && Says(rd, words, i, r) && Complete(rd, words, i)
    ensures var w := Words(rd, words, i, r);
            (w.Some? <==> Complete(rd, words, |words|)) && (w.Some? ==> Says(rd, words, |words|, w.value))
    decreases |words| - i
  {
    if i < |words| {
      OneWordSays(rd, words, i, r);
      var next := OneWord(rd, words, i, r);
      if next.Some? { WordsFrom(rd, words, i + 1, next.value); }
    }
  }

  /** A rule's words can be read exactly if no option lacks its word and every comment can be read;
      then each attribute is what its last option says, and the comments are all there in order. */
  lemma WordsMean(rd: Reader, words: seq<string>)
    ensures var w := Words(rd, words, 0, Rule(map[], []));
            (w.Some? <==> Complete(rd, words, |words|)) && (w.Some? ==> Says(rd, words, |words|, w.value))
  {
    var r := Rule(map[], []);
    forall k ensures AttributeIs(words, 0, r.attributes, k) {}
    WordsFrom(rd, words, 0, r);
  }

  /** After that, addresses, ports, protocols and limits are normalised and all else stays as it is,
      but for the state, which is lost where the rule matches on state, and must be there. */
  lemma NormalisedMeans(rd: Reader, r: Rule)
    ensures var (a, n, byState) := (r.attributes, Normalised(rd, r), ("match", "state") in r.attributes.Items);
            && (n.None? <==>
                  || (byState && "state" !in a)
                  || exists k :: k in a && k !in {"chain", "match", "jump", "state", "pkt_type"} && rd.normalise(k, a[k]).None?)
            && (n.Some? ==>
                  && n.value.comments == r.comments
                  && (forall k :: k in n.value.attributes <==> k in a && !(byState && k == "state"))
                  && (forall k :: k in n.value.attributes ==>
                        if k in {"chain", "match", "jump", "state", "pkt_type"} then n.value.attributes[k] == a[k]
                        else rd.normalise(k, a[k]) == Some(n.value.attributes[k])))
  {
  }

  /** The word behind the last option that sets the attribute. */
  ghost function Raw(words: seq<string>, k: string): Option<string>
  {
    var i := Latest(|words|, j => Sets(words, j, k));
    if i == -1 then None else Some(words[i + 1])
  }

  ghost function Attribute(rd: Reader, words: seq<string>, k: string): Option<string>
  {
    if Raw(words, k).None? || (k == "state" && Raw(words, "match") == Some("state")) then None
    else if k in {"chain", "match", "jump", "state", "pkt_type"} then Raw(words, k)
    else rd.normalise(k, Raw(words, k).value)
  }

  ghost predicate Readable(rd: Reader, words: seq<string>)
  {
    && Complete(rd, words, |words|)
    && (Raw(words, "match") == Some("state") ==> Raw(words, "state").Some?)
    && forall k :: Raw(words, k).Some? && k !in {"chain", "match", "jump", "state", "pkt_type"} ==>
         rd.normalise(k, Raw(words, k).value).Some?
  }

  function Lookup(m: map<string, string>, k: string): Option<string>
  {
    if k in m then Some(m[k]) else None
  }

  lemma RawSaid(rd: Reader, words: seq<string>, r: Rule)
    requires Says(rd, words, |words|, r)
    ensures forall k :: Raw(words, k) == Lookup(r.attributes, k)
  {
    forall k ensures Raw(words, k) == Lookup(r.attributes, k) { assert AttributeIs(words, |words|, r.attributes, k); }
  }

  lemma NormalisedIsReadable(rd: Reader, words: seq<string>, r: Rule)
    requires Complete(rd, words, |words|) && forall k :: Raw(words, k) == Lookup(r.attributes, k)
    ensures Normalised(rd, r).Some? <==> Readable(rd, words)
  {
    NormalisedMeans(rd, r);
    var byState := ("match", "state") in r.attributes.Items;
    assert byState <==> Raw(words, "match") == Some("state");
    forall k ensures k in r.attributes <==> Raw(words, k).Some? {}
  }

  lemma NormalisedAttribute(rd: Reader, words: seq<string>, r: Rule, k: string)
    requires (forall j :: Raw(words, j) == Lookup(r.attributes, j)) && Normalised(rd, r).Some?
    ensures Attribute(rd, words, k) == Lookup(Normalised(rd, r).value.attributes, k)
  {
    NormalisedMeans(rd, r);
    assert ("match", "state") in r.attributes.Items <==> Raw(words, "match") == Some("state");
  }

  /** A rule is read exactly if no option lacks its word, every comment can be read, every address,
      port, protocol and limit normalised, and a match on state has one. Each attribute is then what its
      last option says, normalised, but for the state that is matched on, which is lost; and the
      comments are all there in order. */
  lemma RuleMeans(rd: Reader, words: seq<string>)
    ensures RuleOf(rd, words).Some? <==> Readable(rd, words)
    ensures RuleOf(rd, words).Some? ==> RuleOf(rd, words).value.comments == CommentsIn(rd, words, |words|)
    ensures RuleOf(rd, words).Some? ==> forall k :: Lookup(RuleOf(rd, words).value.attributes, k) == Attribute(rd, words, k)
  {
    WordsMean(rd, words);
    var w := Words(rd, words, 0, Rule(map[], []));
    if w.Some? {
      RawSaid(rd, words, w.value);
      NormalisedIsReadable(rd, words, w.value);
      if Normalised(rd, w.value).Some? {
        NormalisedMeans(rd, w.value);
        forall k ensures Lookup(RuleOf(rd, words).value.attributes, k) == Attribute(rd, words, k) {
          NormalisedAttribute(rd, words, w.value, k);
        }
      }
    }
  }

  // ---------------------------------------------------------------- tables

  datatype Chain = Chain(policy: Option<string>, rules: seq<Rule>)
  type Table = map<string, Chain>
  type Tables = map<string, Table>

  /** A line by its first character, split into words; what follows the first two words of a chain
      line is of no interest. */
  datatype Line = TableLine(name: string) | ChainLine(name: string, policy: Option<string>) | RuleLine(words: seq<string>) | OtherLine

  /** Which chains and comments belong to other programs. */
  datatype Ignored = Ignored(chains: seq<string>, comments: seq<string>)

  predicate StartsWith(s: string, prefixes: seq<string>)
  {
    exists p :: p in prefixes && p <= s
  }

  /** Tables parsed so far and the one being filled. */
  datatype State = State(tables: Tables, current: Option<string>)

  /** A rule line is left out for its chain, the target it jumps to, or a comment. */
  predicate LeftOut(ig: Ignored, chain: string, r: Rule)
  {
    || StartsWith(chain, ig.chains)
    || ("jump" in r.attributes && r.attributes["jump"] != "" && StartsWith(r.attributes["jump"], ig.chains))
    || exists c :: c in r.comments && c != "" && StartsWith(c, ig.comments)
  }

  /** One line; None for an exception. */
  function ParseLine(rd: Reader, ig: Ignored, s: State, line: Line): Option<State>
  {
    match line
    case TableLine(name) => Some(State(s.tables[name := map[]], Some(name)))
    case ChainLine(name, policy) =>
      if StartsWith(name, ig.chains) then Some(s)
      else if policy.None? || s.current.None? || s.current.value !in s.tables then None
      else
        var p := if policy.value == "-" then None else policy;
        var table := s.tables[s.current.value][name := Chain(p, [])];
        Some(s.(tables := s.tables[s.current.value := table]))
    case RuleLine(words) =>
      if |words| < 2 then None
      else
        var r := RuleOf(rd, words);
        if r.None? then None
        else if LeftOut(ig, words[1], r.value) then Some(s)
        else if s.current.None? || s.current.value !in s.tables || words[1] !in s.tables[s.current.value] then None
        else
          var chain := s.tables[s.current.value][words[1]];
          var table := s.tables[s.current.value][words[1] := chain.(rules := chain.rules + [r.value])];
          Some(s.(tables := s.tables[s.current.value := table]))
    case OtherLine => Some(s)
  }

  function ParseAll(rd: Reader, ig: Ignored, s: State, lines: seq<Line>): Option<State>
    decreases |lines|
  {
    if lines == [] then Some(s)
    else
      var t := ParseLine(rd, ig, s, lines[0]);
      if t.None? then None else ParseAll(rd, ig, t.value, lines[1..])
  }

  class Parser {
    const rd: Reader
    const ig: Ignored
    var state: State

    constructor (rd: Reader, ig: Ignored)
      ensures this.rd == rd && this.ig == ig && state == State(map[], None)
    {
      this.rd, this.ig, state := rd, ig, State(map[], None);
    }

    method Parse(lines: seq<Line>) returns (ok: bool)
      modifies this
      ensures ok <==> ParseAll(rd, ig, old(state), lines).Some?
      ensures ok ==> state == ParseAll(rd, ig, old(state), lines).value
    {
      for i := 0 to |lines|
        invariant ParseAll(rd, ig, old(state), lines) == ParseAll(rd, ig, state, lines[i..])
      {
        assert lines[i..][1..] == lines[i + 1..];
        var next := ParseLine(rd, ig, state, lines[i]);
        if next.None? { return false; }
        state := next.value;
      }
      return true;
    }
  }

  // ---------------------------------------------------------------- what an input holds

  /** The last line among the first `n` that opens a table; the lines from there on are its section. */
  function Section(lines: seq<Line>, n: nat): (i: int)
    requires n <= |lines|
    ensures -1 <= i < n && (i >= 0 ==> lines[i].TableLine?) && forall j :: i < j < n ==> !lines[j].TableLine?
  {
    var opens := (j: int) => 0 <= j < |lines| && lines[j].TableLine?;
    assert forall j :: Latest(n, opens) < j < n ==> (lines[j].TableLine? <==> opens(j));
    Latest(n, opens)
  }

  /** The last one that opens this table, which starts it anew. */
  function Opening(lines: seq<Line>, n: nat, t: string): (i: int)
    requires n <= |lines|
    ensures -1 <= i < n && (i >= 0 ==> lines[i] == TableLine(t)) && forall j :: i < j < n ==> lines[j] != TableLine(t)
  {
    var opens := (j: int) => 0 <= j < |lines| && lines[j] == TableLine(t);
    assert forall j :: Latest(n, opens) < j < n ==> (lines[j] == TableLine(t) <==> opens(j));
    Latest(n, opens)
  }

  /** No ignored prefix fits the chain, the target that the rule jumps to, or one of its comments. */
  ghost predicate OwnChain(ig: Ignored, c: string)
  {
    forall p :: p in ig.chains ==> !(p <= c)
  }

  ghost predicate OwnRule(ig: Ignored, c: string, r: Rule)
  {
    && OwnChain(ig, c)
    && ("jump" in r.attributes && r.attributes["jump"] != "" ==> OwnChain(ig, r.attributes["jump"]))
    && forall x, p :: x in r.comments && x != "" && p in ig.comments ==> !(p <= x)
  }

  ghost predicate Declares(ig: Ignored, lines: seq<Line>, open: int, i: int, c: string)
  {
    && 0 <= i < |lines| && lines[i].ChainLine? && lines[i].name == c && OwnChain(ig, c)
    && Section(lines, i) == open
  }

  /** The last line among the first `n` that declares the chain in the section. */
  ghost function Declaration(ig: Ignored, lines: seq<Line>, open: int, n: nat, c: string): (i: int)
    requires n <= |lines|
    ensures -1 <= i < n && (i >= 0 ==> lines[i].ChainLine?)
  {
    Latest(n, j => Declares(ig, lines, open, j, c))
  }

  /** Line `i` gives the chain a rule. */
  ghost predicate Adds(rd: Reader, ig: Ignored, lines: seq<Line>, open: int, i: int, c: string)
  {
    && 0 <= i < |lines| && lines[i].RuleLine? && |lines[i].words| >= 2 && lines[i].words[1] == c
    && RuleOf(rd, lines[i].words).Some? && OwnRule(ig, c, RuleOf(rd, lines[i].words).value)
    && Section(lines, i) == open
  }

  /** The rules for the chain behind line `d` among the first `n` lines, in their order. */
  ghost function RulesBehind(rd: Reader, ig: Ignored, lines: seq<Line>, open: int, d: int, n: nat, c: string): seq<Rule>
    requires n <= |lines|
  {
    if n - 1 <= d || n == 0 then []
    else
      RulesBehind(rd, ig, lines, open, d, n - 1, c) +
      if Adds(rd, ig, lines, open, n - 1, c) then [RuleOf(rd, lines[n - 1].words).value] else []
  }

  /** The chain as it was declared last, with the rules given to it since then. */
  ghost predicate ChainIs(rd: Reader, ig: Ignored, lines: seq<Line>, n: nat, open: int, table: Table, c: string)
    requires n <= |lines|
  {
    var d := Declaration(ig, lines, open, n, c);
    if d == -1 then c !in table
    else
      && c in table && table[c].policy == (if lines[d].policy == Some("-") then None else lines[d].policy)
      && table[c].rules == RulesBehind(rd, ig, lines, open, d, n, c)
  }

  /** The table as it was opened last, with the chains of that section. */
  ghost predicate TableIs(rd: Reader, ig: Ignored, lines: seq<Line>, n: nat, tables: Tables, t: string)
    requires n <= |lines|
  {
    var open := Opening(lines, n, t);
    if open == -1 then t !in tables else t in tables && forall c :: ChainIs(rd, ig, lines, n, open, tables[t], c)
  }

  ghost predicate Read(rd: Reader, ig: Ignored, lines: seq<Line>, n: nat, s: State)
    requires n <= |lines|
  {
    && (if Section(lines, n) == -1 then s.current == None else s.current == Some(lines[Section(lines, n)].name))
    && forall t :: TableIs(rd, ig, lines, n, s.tables, t)
  }

  /** A line that parsing does not fail on: a chain of ours has a policy and a table, and a rule of
      ours has a chain declared in its section. */
  ghost predicate Sound(rd: Reader, ig: Ignored, lines: seq<Line>, i: nat)
    requires i < |lines|
  {
    match lines[i]
    case TableLine(_) => true
    case ChainLine(name, policy) => OwnChain(ig, name) ==> policy.Some? && Section(lines, i) != -1
    case RuleLine(words) =>
      && |words| >= 2 && RuleOf(rd, words).Some?
      && (OwnRule(ig, words[1], RuleOf(rd, words).value) ==>
            Section(lines, i) != -1 && Declaration(ig, lines, Section(lines, i), i, words[1]) != -1)
    case OtherLine => true
  }

  lemma SectionIsOpening(lines: seq<Line>, n: nat, t: string)
    requires n <= |lines|
    ensures Section(lines, n) != -1 ==>
              (Opening(lines, n, t) == Section(lines, n) <==> lines[Section(lines, n)].name == t)
  {
  }

  lemma ChainNext(rd: Reader, ig: Ignored, lines: seq<Line>, n: nat, open: int, before: Table, after: Table, c: string)
    requires n < |lines| && ChainIs(rd, ig, lines, n, open, before, c)
    requires Declares(ig, lines, open, n, c) ==>
               c in after && after[c] == Chain(if lines[n].policy == Some("-") then None else lines[n].policy, [])
    requires Adds(rd, ig, lines, open, n, c) && c in before ==>
               c in after && after[c] == before[c].(rules := before[c].rules + [RuleOf(rd, lines[n].words).value])
    requires !Declares(ig, lines, open, n, c) && !(Adds(rd, ig, lines, open, n, c) && c in before) ==>
               (c in after <==> c in before) && (c in before ==> after[c] == before[c])
    ensures ChainIs(rd, ig, lines, n + 1, open, after, c)
  {
    var d, m := Declaration(ig, lines, open, n, c), n + 1;
    assert Declaration(ig, lines, open, m, c) == if Declares(ig, lines, open, n, c) then n else d;
    if !Declares(ig, lines, open, n, c) && d != -1 && !Adds(rd, ig, lines, open, n, c) {
      var rules := RulesBehind(rd, ig, lines, open, d, n, c);
      assert rules + [] == rules;
    }
  }

  lemma NewTable(rd: Reader, ig: Ignored, lines: seq<Line>, n: nat, c: string)
    requires n < |lines| && lines[n].TableLine?
    ensures ChainIs(rd, ig, lines, n + 1, n, map[], c)
  {
    var m := n + 1;
    assert forall j :: 0 <= j < m ==> !Declares(ig, lines, n, j, c);
  }

  lemma ChainStep(rd: Reader, ig: Ignored, lines: seq<Line>, n: nat, s: State, next: State, t: string, c: string)
    requires n < |lines| && Read(rd, ig, lines, n, s) && ParseLine(rd, ig, s, lines[n]) == Some(next)
    requires lines[n] != TableLine(t) && Opening(lines, n, t) != -1 && t in s.tables && t in next.tables
    requires ChainIs(rd, ig, lines, n, Opening(lines, n, t), s.tables[t], c)
    ensures ChainIs(rd, ig, lines, n + 1, Opening(lines, n, t), next.tables[t], c)
  {
    SectionIsOpening(lines, n, t);
    ChainNext(rd, ig, lines, n, Opening(lines, n, t), s.tables[t], next.tables[t], c);
  }

  lemma TableNext(rd: Reader, ig: Ignored, lines: seq<Line>, n: nat, s: State, next: State, t: string)
    requires n < |lines| && Read(rd, ig, lines, n, s) && ParseLine(rd, ig, s, lines[n]) == Some(next)
    ensures TableIs(rd, ig, lines, n + 1, next.tables, t)
  {
    var m, line := n + 1, lines[n];
    var open := Opening(lines, m, t);
    assert TableIs(rd, ig, lines, n, s.tables, t);
    assert open == if line == TableLine(t) then n else Opening(lines, n, t);
    if line == TableLine(t) {
      forall c ensures ChainIs(rd, ig, lines, m, open, next.tables[t], c) { NewTable(rd, ig, lines, n, c); }
    } else if open != -1 {
      forall c ensures ChainIs(rd, ig, lines, m, open, next.tables[t], c) {
        assert ChainIs(rd, ig, lines, n, open, s.tables[t], c);
        ChainStep(rd, ig, lines, n, s, next, t, c);
      }
    }
  }

  lemma ReadNext(rd: Reader, ig: Ignored, lines: seq<Line>, n: nat, s: State)
    requires n < |lines| && Read(rd, ig, lines, n, s)
    ensures ParseLine(rd, ig, s, lines[n]).Some? <==> Sound(rd, ig, lines, n)
    ensures ParseLine(rd, ig, s, lines[n]).Some? ==> Read(rd, ig, lines, n + 1, ParseLine(rd, ig, s, lines[n]).value)
  {
    LineIsSound(rd, ig, lines, n, s);
    if ParseLine(rd, ig, s, lines[n]).Some? {
      var m, next := n + 1, ParseLine(rd, ig, s, lines[n]).value;
      assert Section(lines, m) == if lines[n].TableLine? then n else Section(lines, n);
      forall t ensures TableIs(rd, ig, lines, m, next.tables, t) { TableNext(rd, ig, lines, n, s, next, t); }
    }
  }

  lemma LineIsSound(rd: Reader, ig: Ignored, lines: seq<Line>, n: nat, s: State)
    requires n < |lines| && Read(rd, ig, lines, n, s)
    ensures ParseLine(rd, ig, s, lines[n]).Some? <==> Sound(rd, ig, lines, n)
  {
    var i := Section(lines, n);
    if i != -1 {
      var t := lines[i].name;
      SectionIsOpening(lines, n, t);
      assert TableIs(rd, ig, lines, n, s.tables, t);
      if lines[n].RuleLine? && |lines[n].words| >= 2 {
        assert ChainIs(rd, ig, lines, n, i, s.tables[t], lines[n].words[1]);
      }
    }
  }

  lemma {:induction false} ParseFrom(rd: Reader, ig: Ignored, lines: seq<Line>, n: nat, s: State)
    requires n <= |lines| && Read(rd, ig, lines, n, s) && forall i: nat :: i < n ==> Sound(rd, ig, lines, i)
    ensures var r := ParseAll(rd, ig, s, lines[n..]);
            && (r.Some? <==> forall i: nat :: i < |lines| ==> Sound(rd, ig, lines, i))
            && (r.Some? ==> Read(rd, ig, lines, |lines|, r.value))
    decreases |lines| - n
  {
    if n < |lines| {
      assert lines[n..][1..] == lines[n + 1..];
      ReadNext(rd, ig, lines, n, s);
      var next := ParseLine(rd, ig, s, lines[n]);
      if next.Some? { ParseFrom(rd, ig, lines, n + 1, next.value); }
    }
  }

  /** An input is parsed exactly if all its lines are sound; then it has each table as it was opened
      last, with the chains of that section as they were declared last and their rules in order. */
  lemma ParseMeans(rd: Reader, ig: Ignored, lines: seq<Line>)
    ensures var r := ParseAll(rd, ig, State(map[], None), lines);
            && (r.Some? <==> forall i: nat :: i < |lines| ==> Sound(rd, ig, lines, i))
            && (r.Some? ==> Read(rd, ig, lines, |lines|, r.value))
  {
    var s := State(map[], None);
    assert lines[0..] == lines;
    forall t ensures TableIs(rd, ig, lines, 0, s.tables, t) {}
    ParseFrom(rd, ig, lines, 0, s);
  }

  // ---------------------------------------------------------------- what other programs add

  /** A chain line with an ignored name, or a rule line that is left out. */
  predicate Foreign(rd: Reader, ig: Ignored, line: Line)
  {
    match line
    case TableLine(_) => false
    case ChainLine(name, _) => StartsWith(name, ig.chains)
    case RuleLine(words) => |words| >= 2 && RuleOf(rd, words).Some? && LeftOut(ig, words[1], RuleOf(rd, words).value)
    case OtherLine => false
  }

  function OwnLines(rd: Reader, ig: Ignored, lines: seq<Line>): seq<Line>
  {
    if lines == [] then []
    else (if Foreign(rd, ig, lines[0]) then [] else [lines[0]]) + OwnLines(rd, ig, lines[1..])
  }

  /** Lines of other programs, wherever they stand, change neither what is parsed nor whether the
      input can be parsed. */
  lemma {:induction false} ForeignLinesDoNotMatter(rd: Reader, ig: Ignored, s: State, lines: seq<Line>)
    ensures ParseAll(rd, ig, s, OwnLines(rd, ig, lines)) == ParseAll(rd, ig, s, lines)
    decreases |lines|
  {
    if lines != [] {
      var rest := OwnLines(rd, ig, lines[1..]);
      var t := ParseLine(rd, ig, s, lines[0]);
      if Foreign(rd, ig, lines[0]) {
        assert t == Some(s) && [] + rest == rest;
        ForeignLinesDoNotMatter(rd, ig, s, lines[1..]);
      } else if t.Some? {
        assert ([lines[0]] + rest)[1..] == rest;
        ForeignLinesDoNotMatter(rd, ig, t.value, lines[1..]);
      }
    }
  }

  // ---------------------------------------------------------------- differences

  datatype Entry =
    | MissingTable(table: string) | AdditionalTable(table: string)
    | MissingChain(table: string, chain: string) | AdditionalChain(table: string, chain: string)
    | PolicyDiffers(table: string, chain: string)
    | RuleOnlyHere(table: string, chain: string, rule: Rule) | RuleOnlyThere(table: string, chain: string, rule: Rule)

  predicate ChainDiffers(t: string, c: string, x: Chain, y: Chain, e: Entry)
  {
    || (e == PolicyDiffers(t, c) && x.policy != y.policy)
    || (e.RuleOnlyHere? && e.table == t && e.chain == c && e.rule in x.rules && e.rule !in y.rules)
    || (e.RuleOnlyThere? && e.table == t && e.chain == c && e.rule in y.rules && e.rule !in x.rules)
  }

  predicate TableDiffers(t: string, x: Table, y: Table, e: Entry)
  {
    || (e.MissingChain? && e.table == t && e.chain in y && e.chain !in x)
    || (e.AdditionalChain? && e.table == t && e.chain in x && e.chain !in y)
    || ((e.PolicyDiffers? || e.RuleOnlyHere? || e.RuleOnlyThere?) && e.chain in x && e.chain in y
        && ChainDiffers(t, e.chain, x[e.chain], y[e.chain], e))
  }

  /** What an entry says of two parsed inputs. */
  predicate Differs(a: Tables, b: Tables, e: Entry)
  {
    match e
    case MissingTable(t) => t in b && t !in a
    case AdditionalTable(t) => t in a && t !in b
    case _ => e.table in a && e.table in b && TableDiffers(e.table, a[e.table], b[e.table], e)
  }

  method DiffChain(t: string, c: string, x: Chain, y: Chain) returns (lines: seq<Entry>)
    ensures forall e :: e in lines <==> ChainDiffers(t, c, x, y, e)
    ensures Distinct(lines)
  {
    lines := [];
    if x.policy != y.policy {
      DistinctPlus(lines, [PolicyDiffers(t, c)]);
      lines := lines + [PolicyDiffers(t, c)];
    }
    var here := set r | r in x.rules && r !in y.rules;
    while here != {}
      invariant here <= set r | r in x.rules && r !in y.rules
      invariant Distinct(lines)
      invariant forall e :: e in lines <==> ChainDiffers(t, c, x, y, e) && !e.RuleOnlyThere? && (e.RuleOnlyHere? ==> e.rule !in here)
      decreases here
    {
      var r :| r in here;
      DistinctPlus(lines, [RuleOnlyHere(t, c, r)]);
      lines := lines + [RuleOnlyHere(t, c, r)];
      here := here - {r};
    }
    var there := set r | r in y.rules && r !in x.rules;
    while there != {}
      invariant there <= set r | r in y.rules && r !in x.rules
      invariant Distinct(lines)
      invariant forall e :: e in lines <==> ChainDiffers(t, c, x, y, e) && (e.RuleOnlyThere? ==> e.rule !in there)
      decreases there
    {
      var r :| r in there;
      DistinctPlus(lines, [RuleOnlyThere(t, c, r)]);
      lines := lines + [RuleOnlyThere(t, c, r)];
      there := there - {r};
    }
  }

  method DiffTable(t: string, x: Table, y: Table) returns (lines: seq<Entry>)
    ensures forall e :: e in lines <==> TableDiffers(t, x, y, e)
    ensures Distinct(lines)
  {
    lines := [];
    var missing := y.Keys - x.Keys;
    while missing != {}
      invariant missing <= y.Keys - x.Keys
      invariant Distinct(lines)
      invariant forall e :: e in lines <==> TableDiffers(t, x, y, e) && e.MissingChain? && e.chain !in missing
      decreases missing
    {
      var c :| c in missing;
      DistinctPlus(lines, [MissingChain(t, c)]);
      lines := lines + [MissingChain(t, c)];
      missing := missing - {c};
    }
    var additional := x.Keys - y.Keys;
    while additional != {}
      invariant additional <= x.Keys - y.Keys
      invariant Distinct(lines)
      invariant forall e :: e in lines <==>
                  TableDiffers(t, x, y, e) && (e.MissingChain? || (e.AdditionalChain? && e.chain !in additional))
      decreases additional
    {
      var c :| c in additional;
      DistinctPlus(lines, [AdditionalChain(t, c)]);
      lines := lines + [AdditionalChain(t, c)];
      additional := additional - {c};
    }
    var common := x.Keys;
    while common != {}
      invariant common <= x.Keys
      invariant Distinct(lines)
      invariant forall e :: e in lines <==>
                  TableDiffers(t, x, y, e) && (e.MissingChain? || e.AdditionalChain? || e.chain !in common)
      decreases common
    {
      var c :| c in common;
      if c in y {
        var more := DiffChain(t, c, x[c], y[c]);
        DistinctPlus(lines, more);
        lines := lines + more;
      }
      common := common - {c};
    }
  }

  /** Parser.diff: exactly what differs is listed. */
  method Diff(a: Tables, b: Tables) returns (lines: seq<Entry>)
    ensures forall e :: e in lines <==> Differs(a, b, e)
    ensures Distinct(lines)
    ensures lines == [] <==> SameRules(a, b)
  {
    lines := [];
    var missing := b.Keys - a.Keys;
    while missing != {}
      invariant missing <= b.Keys - a.Keys
      invariant Distinct(lines)
      invariant forall e :: e in lines <==> Differs(a, b, e) && e.MissingTable? && e.table !in missing
      decreases missing
    {
      var t :| t in missing;
      DistinctPlus(lines, [MissingTable(t)]);
      lines := lines + [MissingTable(t)];
      missing := missing - {t};
    }
    var additional := a.Keys - b.Keys;
    while additional != {}
      invariant additional <= a.Keys - b.Keys
      invariant Distinct(lines)
      invariant forall e :: e in lines <==>
                  Differs(a, b, e) && (e.MissingTable? || (e.AdditionalTable? && e.table !in additional))
      decreases additional
    {
      var t :| t in additional;
      DistinctPlus(lines, [AdditionalTable(t)]);
      lines := lines + [AdditionalTable(t)];
      additional := additional - {t};
    }
    var common := a.Keys;
    while common != {}
      invariant common <= a.Keys
      invariant Distinct(lines)
      invariant forall e :: e in lines <==> Differs(a, b, e) && (e.MissingTable? || e.AdditionalTable? || e.table !in common)
      decreases common
    {
      var t :| t in common;
      if t in b {
        var more := DiffTable(t, a[t], b[t]);
        DistinctPlus(lines, more);
        lines := lines + more;
      }
      common := common - {t};
    }
    NoEntryIffSame(a, b);
    assert lines == [] <==> forall e :: e !in lines by {
      if lines != [] { assert lines[0] in lines; }
    }
  }

  ghost predicate SameChain(x: Chain, y: Chain)
  {
    x.policy == y.policy && forall r :: r in x.rules <==> r in y.rules
  }

  ghost predicate SameTable(x: Table, y: Table)
  {
    x.Keys == y.Keys && forall c :: c in x ==> SameChain(x[c], y[c])
  }

  /** Same tables, chains, policies, and rules of each chain as a set. */
  ghost predicate SameRules(a: Tables, b: Tables)
  {
    a.Keys == b.Keys && forall t :: t in a ==> SameTable(a[t], b[t])
  }

  lemma NoEntryChain(t: string, c: string, x: Chain, y: Chain)
    ensures (forall e :: !ChainDiffers(t, c, x, y, e)) <==> SameChain(x, y)
  {
    if forall e :: !ChainDiffers(t, c, x, y, e) {
      assert !ChainDiffers(t, c, x, y, PolicyDiffers(t, c));
      forall r ensures r in x.rules <==> r in y.rules {
        assert !ChainDiffers(t, c, x, y, RuleOnlyHere(t, c, r)) && !ChainDiffers(t, c, x, y, RuleOnlyThere(t, c, r));
      }
    }
  }

  lemma NoEntryTable(t: string, x: Table, y: Table)
    ensures (forall e :: !TableDiffers(t, x, y, e)) <==> SameTable(x, y)
  {
    if forall e :: !TableDiffers(t, x, y, e) {
      forall c ensures c in x <==> c in y {
        assert !TableDiffers(t, x, y, MissingChain(t, c)) && !TableDiffers(t, x, y, AdditionalChain(t, c));
      }
      forall c | c in x ensures SameChain(x[c], y[c]) {
        forall e ensures !ChainDiffers(t, c, x[c], y[c], e) {
          assert !TableDiffers(t, x, y, e);
        }
        NoEntryChain(t, c, x[c], y[c]);
      }
    } else {
      var e :| TableDiffers(t, x, y, e);
      if e.chain in x && e.chain in y { NoEntryChain(t, e.chain, x[e.chain], y[e.chain]); }
    }
  }

  lemma NoEntryIffSame(a: Tables, b: Tables)
    ensures (forall e :: !Differs(a, b, e)) <==> SameRules(a, b)
  {
    if forall e :: !Differs(a, b, e) {
      forall t ensures t in a <==> t in b {
        assert !Differs(a, b, MissingTable(t)) && !Differs(a, b, AdditionalTable(t));
      }
      forall t | t in a ensures SameTable(a[t], b[t]) {
        forall e ensures !TableDiffers(t, a[t], b[t], e) {
          assert !Differs(a, b, e);
        }
        NoEntryTable(t, a[t], b[t]);
      }
    } else {
      var e :| Differs(a, b, e);
      if e.table in a && e.table in b { NoEntryTable(e.table, a[e.table], b[e.table]); }
    }
  }

  /** Equality is finer. When diff has nothing to say, two inputs are equal exactly if every chain
      has its rules in the same order and as often. */
  lemma EqualOrSilent(a: Tables, b: Tables)
    requires SameRules(a, b)
    ensures a == b <==> forall t, c :: t in a && c in a[t] ==> a[t][c].rules == b[t][c].rules
  {
    if forall t, c :: t in a && c in a[t] ==> a[t][c].rules == b[t][c].rules {
      forall t | t in a ensures a[t] == b[t] {
        assert SameTable(a[t], b[t]);
        forall c | c in a[t] ensures a[t][c] == b[t][c] {
          assert SameChain(a[t][c], b[t][c]);
        }
      }
    }
  }

  /** Two inputs that are unequal by the order of two rules. */
  lemma OrderMatters()
    ensures var r, q := Rule(map["jump" := "ACCEPT"], []), Rule(map["jump" := "DROP"], []);
            var a, b := map["filter" := map["INPUT" := Chain(None, [r, q])]], map["filter" := map["INPUT" := Chain(None, [q, r])]];
            a != b && SameRules(a, b)
  {
    var r, q := Rule(map["jump" := "ACCEPT"], []), Rule(map["jump" := "DROP"], []);
    var x, y := Chain(None, [r, q]), Chain(None, [q, r]);
    var a, b := map["filter" := map["INPUT" := x]], map["filter" := map["INPUT" := y]];
    assert r.attributes["jump"] != q.attributes["jump"];
    assert x.rules[0] != y.rules[0];
    assert SameTable(a["filter"], b["filter"]);
    EqualOrSilent(a, b);
    assert a["filter"]["INPUT"].rules != b["filter"]["INPUT"].rules;
  }

  // ---------------------------------------------------------------- the text of the difference

  /** Some chain that both inputs have differs in its policy. */
  predicate PoliciesDiffer(a: Tables, b: Tables)
  {
    exists t :: t in a && t in b && exists c :: c in a[t] && c in b[t] && a[t][c].policy != b[t][c].policy
  }

  /** Parser.diff joins its lines into a text. A difference of policies is a list among them, so
      the join raises TypeError, told by None, exactly if a common chain's policies differ. */
  method DiffText(a: Tables, b: Tables) returns (text: Option<seq<Entry>>)
    ensures text.None? <==> PoliciesDiffer(a, b)
    ensures text.Some? ==> (forall e :: e in text.value <==> Differs(a, b, e)) && (text.value == [] <==> SameRules(a, b))
  {
    var lines := Diff(a, b);
    PolicyEntries(a, b);
    for i := 0 to |lines|
      invariant forall k :: 0 <= k < i ==> !lines[k].PolicyDiffers?
    {
      if lines[i].PolicyDiffers? {
        assert lines[i] in lines;
        return None;
      }
    }
    assert forall e :: e in lines ==> !e.PolicyDiffers?;
    return Some(lines);
  }

  lemma PolicyEntries(a: Tables, b: Tables)
    ensures PoliciesDiffer(a, b) <==> exists e :: Differs(a, b, e) && e.PolicyDiffers?
  {
    if e :| Differs(a, b, e) && e.PolicyDiffers? {
      assert e.table in a && e.table in b && e.chain in a[e.table] && e.chain in b[e.table];
    }
    if PoliciesDiffer(a, b) {
      var t :| t in a && t in b && exists c :: c in a[t] && c in b[t] && a[t][c].policy != b[t][c].policy;
      var c :| c in a[t] && c in b[t] && a[t][c].policy != b[t][c].policy;
      assert Differs(a, b, PolicyDiffers(t, c));
    }
  }
}
