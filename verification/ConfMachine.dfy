/** email/machine.py and email/conf2.py: a stack of table-driven machines. The main
    machine reads the configuration language; two triggers put a comment machine on
    top of it, which hands characters back when it is done. */
module ConfMachine {
  import opened Options

  // --- Tables ----------------------------------------------------------

  /** The character classes of the tables; Any stands for the False entry. */
  datatype Chars = Space | Begin | Cont | Only(c: char) | Any

  predicate IsBegin(c: char) { 'a' <= c <= 'z' || 'A' <= c <= 'Z' }

  predicate Matches(s: Chars, c: char)
  {
    match s
    case Space => c == ' ' || '\t' <= c <= '\r'
    case Begin => IsBegin(c)
    case Cont => IsBegin(c) || '0' <= c <= '9' || c == '_'
    case Only(d) => c == d
    case Any => false
  }

  datatype Action =
    | Nothing | NewSection | GrowName | NewValue | GrowValue | NewProp | GrowProp | ShowSection
    | NewPropVal | GrowPropVal | QuoteOn | QuoteOff | AddProp
    | StopNewline | StopSlash | StopPlain

  /** One registration: in state node, on these characters, go to target. */
  datatype Row = Row(node: nat, chars: Chars, target: nat, action: Action)

  /** The entry for c in state node: the last one registered for c, else the False
      entry, else none. */
  function Lookup(rows: seq<Row>, node: nat, c: char): (r: Option<Row>)
    ensures r.Some? ==> r.value in rows && r.value.node == node && (r.value.chars == Any || Matches(r.value.chars, c))
    ensures r.None? ==> forall row :: row in rows && row.node == node ==> row.chars != Any && !Matches(row.chars, c)
    ensures r.Some? && r.value.chars == Any ==> forall row :: row in rows && row.node == node ==> !Matches(row.chars, c)
  {
    if rows == [] then None
    else
      var last, rest := rows[|rows| - 1], Lookup(rows[..|rows| - 1], node, c);
      if last.node == node && Matches(last.chars, c) then Some(last)
      else if last.node == node && last.chars == Any && (rest.None? || rest.value.chars == Any) then Some(last)
      else rest
  }

  const OUT: nat := 0
  const SECTION_NAME: nat := 1
  const SECTION_NAME_FINISHED: nat := 2
  const INSIDE_SECTION: nat := 3
  const SECTION_VALUE: nat := 4
  const PROP_NAME: nat := 5
  const PROP_NAME_FINISHED: nat := 6
  const PROP_VALUE: nat := 7
  const PROP_VALUE_CONT: nat := 8
  const PROP_VALUE_QUOTED: nat := 9
  const PROP_VALUE_QUOTED_CONT: nat := 10

  function MainTable(): seq<Row>
  {
    [
      Row(OUT, Space, OUT, Nothing),
      Row(OUT, Begin, SECTION_NAME, NewSection),
      Row(SECTION_NAME, Space, SECTION_NAME_FINISHED, Nothing),
      Row(SECTION_NAME, Cont, SECTION_NAME, GrowName),
      Row(SECTION_NAME_FINISHED, Space, SECTION_NAME_FINISHED, Nothing),
      Row(SECTION_NAME_FINISHED, Only('{'), INSIDE_SECTION, Nothing),
      Row(SECTION_NAME_FINISHED, Cont, SECTION_VALUE, NewValue),
      Row(SECTION_VALUE, Only('{'), INSIDE_SECTION, Nothing),
      Row(SECTION_VALUE, Cont, SECTION_VALUE, GrowValue),
      Row(INSIDE_SECTION, Space, INSIDE_SECTION, Nothing),
      Row(INSIDE_SECTION, Begin, PROP_NAME, NewProp),
      Row(INSIDE_SECTION, Only('}'), OUT, ShowSection),
      Row(PROP_NAME, Space, PROP_NAME_FINISHED, Nothing),
      Row(PROP_NAME, Cont, PROP_NAME, GrowProp),
      Row(PROP_NAME_FINISHED, Space, PROP_NAME_FINISHED, Nothing),
      Row(PROP_NAME_FINISHED, Only('='), PROP_VALUE, Nothing),
      Row(PROP_VALUE, Space, PROP_VALUE, Nothing),
      Row(PROP_VALUE, Begin, PROP_VALUE_CONT, NewPropVal),
      Row(PROP_VALUE, Only('"'), PROP_VALUE_QUOTED, QuoteOn),
      Row(PROP_VALUE_QUOTED, Any, PROP_VALUE_QUOTED_CONT, NewPropVal),
      Row(PROP_VALUE_QUOTED_CONT, Only('"'), PROP_VALUE_CONT, QuoteOff),
      Row(PROP_VALUE_QUOTED_CONT, Any, PROP_VALUE_QUOTED_CONT, GrowPropVal),
      Row(PROP_VALUE_CONT, Cont, PROP_VALUE_CONT, GrowPropVal),
      Row(PROP_VALUE_CONT, Only(';'), INSIDE_SECTION, AddProp)]
  }

  const LINE_INSIDE: nat := 0
  const LINE_OUTSIDE: nat := 1

  function LineTable(): seq<Row>
  {
    [
      Row(LINE_INSIDE, Only('\n'), LINE_OUTSIDE, StopNewline),
      Row(LINE_INSIDE, Any, LINE_INSIDE, Nothing),
      Row(LINE_OUTSIDE, Only('#'), LINE_INSIDE, Nothing)]
  }

  const BLOCK_INSIDE: nat := 0
  const BLOCK_PROB_INSIDE: nat := 1
  const BLOCK_OUTSIDE: nat := 2
  const BLOCK_PROB_OUTSIDE: nat := 3

  function BlockTable(): seq<Row>
  {
    [
      Row(BLOCK_OUTSIDE, Only('/'), BLOCK_PROB_INSIDE, Nothing),
      Row(BLOCK_PROB_INSIDE, Any, BLOCK_OUTSIDE, StopSlash),
      Row(BLOCK_PROB_INSIDE, Only('*'), BLOCK_INSIDE, Nothing),
      Row(BLOCK_INSIDE, Only('*'), BLOCK_PROB_OUTSIDE, Nothing),
      Row(BLOCK_INSIDE, Any, BLOCK_INSIDE, Nothing),
      Row(BLOCK_PROB_OUTSIDE, Any, BLOCK_INSIDE, Nothing),
      Row(BLOCK_PROB_OUTSIDE, Only('*'), BLOCK_PROB_OUTSIDE, Nothing),
      Row(BLOCK_PROB_OUTSIDE, Only('/'), BLOCK_OUTSIDE, StopPlain)]
  }

  // --- Machines --------------------------------------------------------

  datatype Which = Main | OneLine | MultiLine

  datatype Machine = Machine(which: Which, state: nat)

  datatype Section = Section(name: string, value: string, properties: seq<(string, string)>)

  /** What the handlers keep in the context, and the sections shown so far. */
  datatype Fields = Fields(name: string, value: string, properties: seq<(string, string)>,
                           propname: string, propval: string, shown: seq<Section>)

  /** The syntax error: the state and the character that it has no entry for. */
  datatype Fault = Fault(state: nat, c: char)

  datatype Config = Config(machines: seq<Machine>, disabled: bool, f: Fields, fault: Option<Fault>)

  function Rows(w: Which): seq<Row>
  {
    match w case Main => MainTable() case OneLine => LineTable() case MultiLine => BlockTable()
  }

  /** The handlers' effect on the fields. */
  function Handled(f: Fields, a: Action, c: char): Fields
  {
    match a
    case NewSection => f.(name := [c], value := "", properties := [])
    case GrowName => f.(name := f.name + [c])
    case NewValue => f.(value := [c])
    case GrowValue => f.(value := f.value + [c])
    case NewProp => f.(propname := [c])
    case GrowProp => f.(propname := f.propname + [c])
    case ShowSection => f.(shown := f.shown + [Section(f.name, f.value, f.properties)])
    case NewPropVal => f.(propval := [c])
    case GrowPropVal => f.(propval := f.propval + [c])
    case AddProp => f.(properties := f.properties + [(f.propname, f.propval)])
    case _ => f
  }

  /** Machines that a character puts on top of the main one. */
  function Trigger(c: char): Option<Machine>
  {
    if c == '#' then Some(Machine(OneLine, LINE_OUTSIDE))
    else if c == '/' then Some(Machine(MultiLine, BLOCK_OUTSIDE))
    else None
  }

  /** Characters that a stopping machine hands back. */
  function Pushback(a: Action, c: char): string
  {
    match a case StopNewline => "\n" case StopSlash => ['/', c] case _ => ""
  }

  predicate IsStop(a: Action) { a == StopNewline || a == StopSlash || a == StopPlain }

  /** A character sent to the machine on top. */
  function Send(g: Config, c: char): Config
    decreases |g.machines|, 0
  {
    if g.fault.Some? || g.machines == [] then g
    else
      var k := |g.machines| - 1;
      var m := g.machines[k];
      if m.which == Main && !g.disabled && Trigger(c).Some? then
        var sub := Trigger(c).value;
        match Lookup(Rows(sub.which), sub.state, c)
        case None => g.(fault := Some(Fault(sub.state, c)))
        case Some(row) => g.(machines := g.machines + [sub.(state := row.target)])
      else
        match Lookup(Rows(m.which), m.state, c)
        case None => g.(fault := Some(Fault(m.state, c)))
        case Some(row) =>
          if IsStop(row.action) then
            var g' := SendAll(g.(machines := g.machines[..k], disabled := true), Pushback(row.action, c));
            if g'.fault.Some? then g' else g'.(disabled := false)
          else
            g.(machines := g.machines[k := m.(state := row.target)],
               f := Handled(g.f, row.action, c),
               disabled := if row.action == QuoteOn then true else if row.action == QuoteOff then false else g.disabled)
  }

  /** Characters handed back, one by one. No machine is ever put on the stack in the
      middle of that (between two characters the stack has at most two machines), which
      the test below makes plain to the reader of the recursion. */
  function SendAll(g: Config, s: string): Config
    decreases |g.machines|, 1, |s|
  {
    if s == [] then g
    else
      var g' := Send(g, s[0]);
      if |g'.machines| <= |g.machines| then SendAll(g', s[1..]) else g'
  }

  predicate MainBelow(g: Config)
  {
    g.machines != [] && g.machines[0].which == Main
  }

  lemma GoesOnAt(i: nat)
    requires i < 24
    ensures |MainTable()| == 24 && !IsStop(MainTable()[i].action)
  {
  }

  /** The main machine never stops. */
  lemma MainGoesOn(node: nat, c: char)
    ensures Lookup(MainTable(), node, c).Some? ==> !IsStop(Lookup(MainTable(), node, c).value.action)
  {
    hide MainTable, Lookup;
    var r := Lookup(MainTable(), node, c);
    if r.Some? {
      var i :| 0 <= i < |MainTable()| && MainTable()[i] == r.value;
      GoesOnAt(0);
      GoesOnAt(i);
    }
  }

  /** So it stays at the bottom of the stack. */
  lemma {:induction false} SendKeepsMain(g: Config, c: char)
    requires MainBelow(g)
    ensures MainBelow(Send(g, c))
    decreases |g.machines|, 0
  {
    hide MainTable, LineTable, BlockTable, Lookup, Handled, SendAll, Pushback, Trigger;
    if g.fault.None? {
      var k := |g.machines| - 1;
      var m := g.machines[k];
      var entry := Lookup(Rows(m.which), m.state, c);
      MainGoesOn(m.state, c);
      if entry.Some? && IsStop(entry.value.action) && k > 0 {
        SendAllKeepsMain(g.(machines := g.machines[..k], disabled := true), Pushback(entry.value.action, c));
      }
    }
  }

  lemma {:induction false} SendAllKeepsMain(g: Config, s: string)
    requires MainBelow(g)
    ensures MainBelow(SendAll(g, s))
    decreases |g.machines|, 1, |s|
  {
    hide Send;
    if s != [] {
      SendKeepsMain(g, s[0]);
      var g' := Send(g, s[0]);
      if |g'.machines| <= |g.machines| { SendAllKeepsMain(g', s[1..]); }
    }
  }

  /** What process does with its input until the first fault. */
  function Feed(g: Config, text: string): Config
    decreases text
  {
    if text == [] || g.fault.Some? then g else Feed(Send(g, text[0]), text[1..])
  }

  lemma {:induction false} FeedAppend(g: Config, a: string, b: string)
    ensures Feed(g, a + b) == Feed(Feed(g, a), b)
    decreases a
  {
    hide Send;
    if a == [] {
      assert a + b == b;
    } else if g.fault.None? {
      assert (a + b)[1..] == a[1..] + b;
      FeedAppend(Send(g, a[0]), a[1..], b);
    }
  }

  lemma FeedStep(g: Config, s: string, i: nat)
    requires i < |s| && g.fault.None?
    ensures Feed(g, s[i..]) == Feed(Send(g, s[i]), s[i + 1..])
  {
    hide Send;
    assert s[i..][1..] == s[i + 1..];
  }

  lemma FeedEnd(g: Config, s: string)
    ensures Feed(g, s[|s|..]) == g
    ensures g.fault.Some? ==> Feed(g, s) == g
  {
  }

  lemma SendAllStep(g: Config, s: string, i: nat)
    requires i < |s|
    ensures SendAll(g, s[i..]) ==
      var g' := Send(g, s[i]);
      if |g'.machines| <= |g.machines| then SendAll(g', s[i + 1..]) else g'
  {
    hide Send;
    assert s[i..][1..] == s[i + 1..];
  }

  lemma {:induction false} SendAllStuck(g: Config, s: string)
    requires g.fault.Some? || g.machines == []
    ensures SendAll(g, s) == g
    decreases |s|
  {
    if s != [] { SendAllStuck(g, s[1..]); }
  }

  lemma SendAllNone(g: Config)
    ensures SendAll(g, []) == g
  {
  }

  /** The main Context of machine.py. */
  class Context {
    var machines: seq<Machine>
    var disableTriggers: bool
    var fields: Fields
    var fault: Option<Fault>

    function State(): Config
      reads this
    {
      Config(machines, disableTriggers, fields, fault)
    }

    constructor ()
      ensures State() == Config([], false, Fields("", "", [], "", "", []), None)
    {
      machines, disableTriggers, fault := [], false, None;
      fields := Fields("", "", [], "", "", []);
    }

    /** One turn of the generator in _machine, for the machine on top. */
    method SendChar(c: char)
      requires machines != [] && fault.None?
      modifies this
      ensures State() == Send(old(State()), c)
      decreases |machines|, 0
    {
      hide MainTable, LineTable, BlockTable, SendAll, Lookup, Handled, Pushback;
      var k := |machines| - 1;
      var m := machines[k];
      if m.which == Main && !disableTriggers && Trigger(c).Some? {
        var sub := Trigger(c).value;
        var entry := Lookup(Rows(sub.which), sub.state, c);
        if entry.None? {
          fault := Some(Fault(sub.state, c));
        } else {
          machines := machines + [sub.(state := entry.value.target)];
        }
        return;
      }
      var entry := Lookup(Rows(m.which), m.state, c);
      if entry.None? {
        fault := Some(Fault(m.state, c));
        return;
      }
      var action := entry.value.action;
      if IsStop(action) {
        Stop(Pushback(action, c));
      } else {
        fields := Handled(fields, action, c);
        if action == QuoteOn { disableTriggers := true; }
        if action == QuoteOff { disableTriggers := false; }
        machines := machines[k := m.(state := entry.value.target)];
      }
    }

    /** stop: the machine on top goes, and its parent takes up again with what is
        handed back. An exception leaves the triggers disabled. */
    method Stop(pushback: string)
      requires machines != [] && fault.None?
      modifies this
      ensures State() ==
        var g := old(State());
        var g' := SendAll(g.(machines := g.machines[..|g.machines| - 1], disabled := true), pushback);
        if g'.fault.Some? then g' else g'.(disabled := false)
      decreases |machines| - 1, 1
    {
      hide Send, SendAll;
      machines := machines[..|machines| - 1];
      disableTriggers := true;
      ghost var g0, n0 := State(), |machines|;
      var i, go := 0, true;
      while i < |pushback| && go && fault.None? && machines != []
        invariant i <= |pushback| && (go ==> |machines| <= n0)
        invariant SendAll(g0, pushback) == if go then SendAll(State(), pushback[i..]) else State()
        decreases |pushback| - i
      {
        SendAllStep(State(), pushback, i);
        var n := |machines|;
        SendChar(pushback[i]);
        go := |machines| <= n;
        i := i + 1;
      }
      if i < |pushback| && go {
        SendAllStuck(State(), pushback[i..]);
      } else {
        assert pushback[|pushback|..] == [];
        SendAllNone(State());
      }
      if fault.None? {
        disableTriggers := false;
      }
    }

    /** process, on the whole text of the file. */
    method Process(text: string)
      requires fault.None? && machines == []
      modifies this
      ensures State() == Feed(old(State()).(machines := [Machine(Main, OUT)]), text + "\n")
    {
      hide Send, Feed;
      machines := machines + [Machine(Main, OUT)];
      ghost var g := State();
      assert g == old(State()).(machines := [Machine(Main, OUT)]);
      var all, i := text + "\n", 0;
      while i < |all| && fault.None?
        invariant i <= |all| && Feed(g, all) == Feed(State(), all[i..])
        invariant machines != [] && machines[0].which == Main
      {
        FeedStep(State(), all, i);
        SendKeepsMain(State(), all[i]);
        SendChar(all[i]);
        i := i + 1;
      }
      FeedEnd(State(), all);
      FeedEnd(State(), all[i..]);
    }
  }
}
