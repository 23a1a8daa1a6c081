/** Comments are transparent: reading a text with the stack of machines comes to the
    same as reading it, with its comments removed, with the main machine alone. */
module ConfComments {
  import opened Options
  import opened ConfMachine
  import opened ConfTable

  // --- The main machine alone ------------------------------------------

  datatype Plain = Plain(state: nat, f: Fields, fault: Option<Fault>)

  function MainStep(p: Plain, c: char): Plain
  {
    if p.fault.Some? then p
    else match Lookup(MainTable(), p.state, c)
      case None => p.(fault := Some(Fault(p.state, c)))
      case Some(row) => Plain(row.target, Handled(p.f, row.action, c), None)
  }

  function MainRun(p: Plain, s: string): Plain
    decreases s
  {
    if s == [] then p else MainRun(MainStep(p, s[0]), s[1..])
  }

  // --- Removing comments -----------------------------------------------

  function FromNewline(s: string): (r: string)
    ensures |r| <= |s| && (r != [] ==> r[0] == '\n' && r[|r| - 1] == s[|s| - 1])
  {
    if s == [] || s[0] == '\n' then s else FromNewline(s[1..])
  }

  /** Behind the first asterisk that a slash follows. */
  function AfterClose(s: string): (r: string)
    ensures |r| <= |s| && (r != [] ==> r[|r| - 1] == s[|s| - 1])
  {
    if |s| < 2 then [] else if s[0] == '*' && s[1] == '/' then s[2..] else AfterClose(s[1..])
  }

  /** How many characters there are up to and including the first quote. */
  function ToQuote(s: string): (n: nat)
    ensures n <= |s| && forall k :: 0 <= k < n - 1 ==> s[k] != '"'
    ensures (n < |s| ==> 0 < n && s[n - 1] == '"')
  {
    if s == [] then 0 else if s[0] == '"' then 1 else 1 + ToQuote(s[1..])
  }

  /** A quoted value behind its opening quote: its first character is taken as it is,
      even if it is a quote, and the next quote ends it. */
  function QuotedLength(s: string): (n: nat)
    ensures n <= |s| && (s != [] ==> n > 0)
  {
    if s == [] then 0 else 1 + ToQuote(s[1..])
  }

  /** The text without its comments: a line comment leaves the newline behind it, a
      block comment leaves nothing, and one that is not closed takes the rest with it.
      Comments start outside quoted values only. */
  function Strip(s: string): string
    decreases |s|
  {
    if s == [] then []
    else if s[0] == '#' then Strip(FromNewline(s[1..]))
    else if |s| >= 2 && s[0] == '/' && s[1] == '*' then Strip(AfterClose(s[2..]))
    else if s[0] == '"' then
      var n := 1 + QuotedLength(s[1..]);
      s[..n] + Strip(s[n..])
    else [s[0]] + Strip(s[1..])
  }

  // --- Facts about the tables ------------------------------------------

  predicate Quoted(state: nat) { state == PROP_VALUE_QUOTED || state == PROP_VALUE_QUOTED_CONT }

  /** What every row of the main table satisfies: no entry for the comment characters
      outside quotes, and the triggers are off exactly while a quoted value is read. */
  predicate MainRow(r: Row)
  {
    && !IsStop(r.action)
    && (!Quoted(r.node) ==> r.chars != Any && !Matches(r.chars, '/') && !Matches(r.chars, '#'))
    && (!Quoted(r.node) && Matches(r.chars, '"') ==>
          r.action == QuoteOn && r.target == PROP_VALUE_QUOTED && r.chars == Only('"'))
    && (!Quoted(r.node) && !Matches(r.chars, '"') ==> r.action != QuoteOn && r.action != QuoteOff && !Quoted(r.target))
    && (r.node == PROP_VALUE_QUOTED ==> r == Row(PROP_VALUE_QUOTED, Any, PROP_VALUE_QUOTED_CONT, NewPropVal))
    && (r.node == PROP_VALUE_QUOTED_CONT ==>
          || r == Row(PROP_VALUE_QUOTED_CONT, Only('"'), PROP_VALUE_CONT, QuoteOff)
          || r == Row(PROP_VALUE_QUOTED_CONT, Any, PROP_VALUE_QUOTED_CONT, GrowPropVal))
  }

  lemma MainRowOf(r: Row)
    requires Listed(r)
    ensures MainRow(r)
  {
  }

  lemma MainRows()
    ensures forall r :: r in MainTable() ==> MainRow(r)
    ensures Row(PROP_VALUE_QUOTED, Any, PROP_VALUE_QUOTED_CONT, NewPropVal) in MainTable()
    ensures Row(PROP_VALUE_QUOTED_CONT, Only('"'), PROP_VALUE_CONT, QuoteOff) in MainTable()
    ensures Row(PROP_VALUE_QUOTED_CONT, Any, PROP_VALUE_QUOTED_CONT, GrowPropVal) in MainTable()
  {
    hide MainTable, MainRow, Listed;
    AllListed();
    ContentRows();
    forall r | r in MainTable() ensures MainRow(r) { MainRowOf(r); }
  }

  lemma LineRows(c: char)
    ensures Lookup(LineTable(), LINE_OUTSIDE, '#') == Some(Row(LINE_OUTSIDE, Only('#'), LINE_INSIDE, Nothing))
    ensures Lookup(LineTable(), LINE_INSIDE, c) ==
      Some(if c == '\n' then Row(LINE_INSIDE, Only('\n'), LINE_OUTSIDE, StopNewline)
           else Row(LINE_INSIDE, Any, LINE_INSIDE, Nothing))
  {
    assert LineTable()[0] in LineTable() && LineTable()[1] in LineTable() && LineTable()[2] in LineTable();
  }

  lemma BlockRowsEnter(c: char)
    ensures Lookup(BlockTable(), BLOCK_OUTSIDE, '/') == Some(Row(BLOCK_OUTSIDE, Only('/'), BLOCK_PROB_INSIDE, Nothing))
    ensures Lookup(BlockTable(), BLOCK_PROB_INSIDE, c) ==
      Some(if c == '*' then Row(BLOCK_PROB_INSIDE, Only('*'), BLOCK_INSIDE, Nothing)
           else Row(BLOCK_PROB_INSIDE, Any, BLOCK_OUTSIDE, StopSlash))
  {
    forall i: nat | i < 8 ensures BlockTable()[i] in BlockTable() {}
  }

  lemma BlockRowsLeave(c: char)
    ensures Lookup(BlockTable(), BLOCK_INSIDE, c) ==
      Some(if c == '*' then Row(BLOCK_INSIDE, Only('*'), BLOCK_PROB_OUTSIDE, Nothing)
           else Row(BLOCK_INSIDE, Any, BLOCK_INSIDE, Nothing))
    ensures Lookup(BlockTable(), BLOCK_PROB_OUTSIDE, c) ==
      Some(if c == '*' then Row(BLOCK_PROB_OUTSIDE, Only('*'), BLOCK_PROB_OUTSIDE, Nothing)
           else if c == '/' then Row(BLOCK_PROB_OUTSIDE, Only('/'), BLOCK_OUTSIDE, StopPlain)
           else Row(BLOCK_PROB_OUTSIDE, Any, BLOCK_INSIDE, Nothing))
  {
    forall i: nat | i < 8 ensures BlockTable()[i] in BlockTable() {}
  }

  lemma BlockRows(c: char)
    ensures Lookup(BlockTable(), BLOCK_OUTSIDE, '/') == Some(Row(BLOCK_OUTSIDE, Only('/'), BLOCK_PROB_INSIDE, Nothing))
    ensures Lookup(BlockTable(), BLOCK_PROB_INSIDE, c) ==
      Some(if c == '*' then Row(BLOCK_PROB_INSIDE, Only('*'), BLOCK_INSIDE, Nothing)
           else Row(BLOCK_PROB_INSIDE, Any, BLOCK_OUTSIDE, StopSlash))
    ensures Lookup(BlockTable(), BLOCK_INSIDE, c) ==
      Some(if c == '*' then Row(BLOCK_INSIDE, Only('*'), BLOCK_PROB_OUTSIDE, Nothing)
           else Row(BLOCK_INSIDE, Any, BLOCK_INSIDE, Nothing))
    ensures Lookup(BlockTable(), BLOCK_PROB_OUTSIDE, c) ==
      Some(if c == '*' then Row(BLOCK_PROB_OUTSIDE, Only('*'), BLOCK_PROB_OUTSIDE, Nothing)
           else if c == '/' then Row(BLOCK_PROB_OUTSIDE, Only('/'), BLOCK_OUTSIDE, StopPlain)
           else Row(BLOCK_PROB_OUTSIDE, Any, BLOCK_INSIDE, Nothing))
  {
    hide Lookup, BlockTable;
    BlockRowsEnter(c);
    BlockRowsLeave(c);
  }

  // --- The stack between two characters --------------------------------

  /** Main machine alone on the stack; triggers are off exactly in quoted states. */
  function At(p: Plain): Config
  {
    Config([Machine(Main, p.state)], Quoted(p.state), p.f, p.fault)
  }

  function Inside(p: Plain, m: Machine): Config
  {
    Config([Machine(Main, p.state), m], false, p.f, None)
  }

  /** The machine of a comment that the text is in the middle of. */
  predicate InComment(m: Machine)
  {
    m == Machine(OneLine, LINE_INSIDE) || m == Machine(MultiLine, BLOCK_INSIDE)
    || m == Machine(MultiLine, BLOCK_PROB_INSIDE) || m == Machine(MultiLine, BLOCK_PROB_OUTSIDE)
  }

  /** What is on the stack between two characters of any text: the main machine, and at
      most one comment machine above it. Triggers are off exactly in the two states that
      read a quoted value. */
  predicate Shaped(g: Config)
  {
    g.fault.None? ==>
      && 1 <= |g.machines| <= 2 && g.machines[0].which == Main
      && (g.disabled <==> Quoted(g.machines[0].state))
      && (|g.machines| == 2 ==> InComment(g.machines[1]) && !g.disabled)
  }

  /** What a reader of the configuration gets to see: sections and values, and the
      syntax error with its state and character. */
  function Outcome(g: Config): Plain
  {
    if g.machines == [] then Plain(OUT, g.f, g.fault) else Plain(g.machines[0].state, g.f, g.fault)
  }

  /** The main machine gets the character, or hands out a fault. */
  predicate Comes(g: Config, p: Plain)
  {
    Outcome(g) == p && (p.fault.None? ==> g == At(p))
  }

  lemma SendMain(p: Plain, c: char)
    requires p.fault.None? && (Quoted(p.state) || Trigger(c).None?)
    ensures Send(At(p), c) == At(MainStep(p, c))
    ensures MainStep(p, c).fault.None? ==>
      (Quoted(MainStep(p, c).state) <==> if Quoted(p.state) then p.state == PROP_VALUE_QUOTED || c != '"' else c == '"')
    ensures p.state == PROP_VALUE_QUOTED ==>
      MainStep(p, c).fault.None? && MainStep(p, c).state == PROP_VALUE_QUOTED_CONT
    ensures p.state == PROP_VALUE_QUOTED_CONT ==> MainStep(p, c).fault.None?
    ensures !Quoted(p.state) && c == '"' && MainStep(p, c).fault.None? ==> MainStep(p, c).state == PROP_VALUE_QUOTED
    ensures Quoted(p.state) && MainStep(p, c).fault.None? && Quoted(MainStep(p, c).state) ==>
      MainStep(p, c).state == PROP_VALUE_QUOTED_CONT
  {
    hide MainTable, LineTable, BlockTable, Lookup, Handled;
    MainRows();
    var g := At(p);
    assert g.machines[0 := Machine(Main, MainStep(p, c).state)] == [Machine(Main, MainStep(p, c).state)];
  }

  const LINE := Machine(OneLine, LINE_INSIDE)
  const BLOCK := Machine(MultiLine, BLOCK_INSIDE)
  const BLOCK_STAR := Machine(MultiLine, BLOCK_PROB_OUTSIDE)
  const BLOCK_SLASH := Machine(MultiLine, BLOCK_PROB_INSIDE)

  lemma SendOpen(p: Plain)
    requires p.fault.None? && !Quoted(p.state)
    ensures Send(At(p), '#') == Inside(p, LINE) && Send(At(p), '/') == Inside(p, BLOCK_SLASH)
  {
    hide MainTable, LineTable, BlockTable, Lookup;
    LineRows('#');
    BlockRows('/');
  }

  /** The main machine with its triggers off, as stop leaves it. */
  function Back(p: Plain): Config
  {
    Config([Machine(Main, p.state)], true, p.f, p.fault)
  }

  /** A character for a comment machine on top. */
  lemma SendSub(p: Plain, m: Machine, c: char, row: Row)
    requires p.fault.None? && m.which != Main && Lookup(Rows(m.which), m.state, c) == Some(row)
    ensures row.action == Nothing ==> Send(Inside(p, m), c) == Inside(p, m.(state := row.target))
    ensures IsStop(row.action) ==>
      var g' := SendAll(Back(p), Pushback(row.action, c));
      Send(Inside(p, m), c) == if g'.fault.Some? then g' else g'.(disabled := false)
  {
    hide MainTable, LineTable, BlockTable, Lookup, SendAll, Rows;
    var g := Inside(p, m);
    assert g.machines[..1] == [Machine(Main, p.state)];
    assert g.machines[1 := m.(state := row.target)] == [Machine(Main, p.state), m.(state := row.target)];
  }

  /** What a main machine with its triggers off makes of a character outside quotes. */
  lemma SendBack(p: Plain, c: char)
    requires p.fault.None? && !Quoted(p.state) && c != '"'
    ensures Send(Back(p), c) == Back(MainStep(p, c))
    ensures MainStep(p, c).fault.None? ==> !Quoted(MainStep(p, c).state)
    ensures c == '/' ==> MainStep(p, c) == p.(fault := Some(Fault(p.state, c)))
  {
    hide MainTable, LineTable, BlockTable, Lookup, Handled;
    MainRows();
    var p' := MainStep(p, c);
    assert [Machine(Main, p.state)][0 := Machine(Main, p'.state)] == [Machine(Main, p'.state)];
  }

  lemma SendAllOne(g: Config, s: string)
    requires s != [] && |Send(g, s[0]).machines| <= |g.machines|
    ensures SendAll(g, s) == SendAll(Send(g, s[0]), s[1..])
  {
    hide Send;
  }

  lemma SendLine(p: Plain, c: char)
    requires p.fault.None? && !Quoted(p.state)
    ensures c != '\n' ==> Send(Inside(p, LINE), c) == Inside(p, LINE)
    ensures c == '\n' ==> Comes(Send(Inside(p, LINE), c), MainStep(p, c))
    ensures c == '\n' && MainStep(p, c).fault.None? ==> !Quoted(MainStep(p, c).state)
  {
    hide MainTable, LineTable, BlockTable, Lookup, Handled, Send, SendAll, MainStep;
    LineRows(c);
    SendSub(p, LINE, c, Lookup(LineTable(), LINE_INSIDE, c).value);
    if c == '\n' {
      SendBack(p, c);
      assert "\n"[1..] == [];
      SendAllOne(Back(p), "\n");
      SendAllNone(Back(MainStep(p, c)));
    }
  }

  lemma SendBlock(p: Plain, c: char)
    requires p.fault.None? && !Quoted(p.state)
    ensures Send(Inside(p, BLOCK), c) == Inside(p, if c == '*' then BLOCK_STAR else BLOCK)
    ensures Send(Inside(p, BLOCK_STAR), c) ==
      if c == '/' then At(p) else Inside(p, if c == '*' then BLOCK_STAR else BLOCK)
    ensures c == '*' ==> Send(Inside(p, BLOCK_SLASH), c) == Inside(p, BLOCK)
  {
    hide MainTable, LineTable, BlockTable, Lookup, Handled, Send, SendAll, MainStep;
    BlockRows(c);
    SendSub(p, BLOCK, c, Lookup(BlockTable(), BLOCK_INSIDE, c).value);
    SendSub(p, BLOCK_STAR, c, Lookup(BlockTable(), BLOCK_PROB_OUTSIDE, c).value);
    SendSub(p, BLOCK_SLASH, c, Lookup(BlockTable(), BLOCK_PROB_INSIDE, c).value);
    SendAllNone(Back(p));
  }

  /** A slash that starts no comment is a fault: the main table has no entry for it
      outside quotes. */
  lemma SendSlash(p: Plain, c: char)
    requires p.fault.None? && !Quoted(p.state) && c != '*'
    ensures Comes(Send(Inside(p, BLOCK_SLASH), c), MainStep(p, '/')) && MainStep(p, '/').fault.Some?
  {
    hide MainTable, LineTable, BlockTable, Lookup, Handled, Send, SendAll, MainStep;
    BlockRows(c);
    SendSub(p, BLOCK_SLASH, c, Lookup(BlockTable(), BLOCK_PROB_INSIDE, c).value);
    SendBack(p, '/');
    SendAllOne(Back(p), ['/', c]);
    SendAllStuck(Back(MainStep(p, '/')), ['/', c][1..]);
  }

  // --- Through a whole comment -----------------------------------------

  lemma {:induction false} FeedLine(p: Plain, s: string)
    requires p.fault.None? && !Quoted(p.state)
    ensures Feed(Inside(p, LINE), s) == Feed(Inside(p, LINE), FromNewline(s))
  {
    hide Send;
    if s != [] && s[0] != '\n' {
      SendLine(p, s[0]);
      FeedLine(p, s[1..]);
    }
  }

  lemma {:induction false} FeedBlock(p: Plain, s: string)
    requires p.fault.None? && !Quoted(p.state)
    ensures Outcome(Feed(Inside(p, BLOCK), s)) == Outcome(Feed(At(p), AfterClose(s)))
    ensures Outcome(Feed(Inside(p, BLOCK_STAR), s)) == Outcome(Feed(At(p), AfterClose(['*'] + s)))
    decreases |s|
  {
    hide Send;
    if s != [] {
      SendBlock(p, s[0]);
      FeedBlock(p, s[1..]);
      assert (['*'] + s)[1..] == s;
      assert ['*'] + s[1..] == s || s[0] != '*';
      if s[0] == '/' { assert (['*'] + s)[2..] == s[1..]; }
      AfterCloseSkips(s);
    }
  }

  /** A character that is no asterisk plays no part in closing a comment. */
  lemma AfterCloseSkips(s: string)
    requires s != []
    ensures s[0] != '*' ==> AfterClose(s) == AfterClose(s[1..])
    ensures s[0] != '/' ==> AfterClose(['*'] + s) == AfterClose(s)
  {
    assert (['*'] + s)[1..] == s;
  }

  lemma {:induction false} FeedQuoted(p: Plain, t: string)
    requires p.fault.None? && p.state == PROP_VALUE_QUOTED_CONT && forall k :: 0 <= k < |t| - 1 ==> t[k] != '"'
    ensures var p' := MainRun(p, t);
      Feed(At(p), t) == At(p') && p'.fault.None? && (t != [] && t[|t| - 1] == '"' ==> !Quoted(p'.state))
    decreases |t|
  {
    hide MainTable, LineTable, BlockTable, Send, MainStep;
    if t != [] {
      SendMain(p, t[0]);
      if |t| > 1 {
        StaysQuoted(p, t[0]);
        FeedQuoted(MainStep(p, t[0]), t[1..]);
      }
    }
  }

  lemma StaysQuoted(p: Plain, c: char)
    requires p.fault.None? && p.state == PROP_VALUE_QUOTED_CONT
    ensures if c == '"' then !Quoted(MainStep(p, c).state) else MainStep(p, c).state == PROP_VALUE_QUOTED_CONT
  {
    hide MainTable, LineTable, BlockTable, Lookup, Handled;
    MainRows();
  }

  // --- Transparency ----------------------------------------------------

  lemma {:induction false} MainStuck(p: Plain, s: string)
    requires p.fault.Some?
    ensures MainRun(p, s) == p
    decreases s
  {
    if s != [] { MainStuck(p, s[1..]); }
  }

  lemma {:induction false} MainAppend(p: Plain, a: string, b: string)
    ensures MainRun(p, a + b) == MainRun(MainRun(p, a), b)
    decreases a
  {
    hide MainStep;
    if a == [] {
      assert a + b == b;
    } else {
      assert (a + b)[1..] == a[1..] + b;
      MainAppend(MainStep(p, a[0]), a[1..], b);
    }
  }

  /** A character that comes through to the main machine, then the rest. */
  lemma ThenRest(g: Config, p: Plain, c: char, rest: string)
    requires Comes(g, MainStep(p, c))
    requires MainStep(p, c).fault.None? ==>
      Outcome(Feed(At(MainStep(p, c)), rest)) == MainRun(MainStep(p, c), Strip(rest))
    ensures Outcome(Feed(g, rest)) == MainRun(p, [c] + Strip(rest))
  {
    hide MainStep, Send, Strip;
    var s := [c] + Strip(rest);
    assert s[0] == c && s[1..] == Strip(rest);
    if MainStep(p, c).fault.Some? { MainStuck(MainStep(p, c), Strip(rest)); }
  }

  /** The quoted value at the front of s, behind its opening quote. */
  lemma FeedBody(p: Plain, s: string)
    requires p.fault.None? && p.state == PROP_VALUE_QUOTED
    ensures var n := QuotedLength(s); var p' := MainRun(p, s[..n]);
      Feed(At(p), s[..n]) == At(p') && p'.fault.None? && (n < |s| ==> !Quoted(p'.state))
  {
    hide MainTable, LineTable, BlockTable, Send, MainStep;
    if s != [] {
      var n := QuotedLength(s);
      var body := s[..n];
      SendMain(p, s[0]);
      assert body[1..] == s[1..][..n - 1];
      FeedQuoted(MainStep(p, s[0]), body[1..]);
    }
  }

  /** For every input that ends with a newline, as process makes sure of: the stack of
      machines and the main machine on the text without comments see the same sections
      and the same syntax error. */
  lemma {:induction false} Transparent(p: Plain, s: string)
    requires p.fault.None? && !Quoted(p.state) && (s == [] || s[|s| - 1] == '\n')
    ensures Outcome(Feed(At(p), s)) == MainRun(p, Strip(s))
    decreases |s|
  {
    hide MainTable, LineTable, BlockTable, Send, MainStep, Strip, Feed, Trigger;
    if s == [] {
      StripNil();
      FeedNil(At(p));
    } else if s[0] == '#' {
      TransparentLine(p, s);
    } else if s[0] == '/' {
      TransparentSlash(p, s);
    } else if s[0] == '"' {
      TransparentQuote(p, s);
    } else {
      var p' := MainStep(p, s[0]);
      StripPlain(s);
      FeedOne(At(p), s);
      TriggerIs(s[0]);
      SendMain(p, s[0]);
      if p'.fault.None? { Transparent(p', s[1..]); }
      ThenRest(At(p'), p, s[0], s[1..]);
    }
  }

  lemma TriggerIs(c: char)
    ensures Trigger(c).Some? <==> c == '#' || c == '/'
  {
  }

  lemma StripNil()
    ensures Strip([]) == []
  {
  }

  lemma FeedNil(g: Config)
    ensures Feed(g, []) == g
  {
  }

  lemma FeedOne(g: Config, s: string)
    requires s != [] && g.fault.None?
    ensures Feed(g, s) == Feed(Send(g, s[0]), s[1..])
  {
    hide Send;
  }

  lemma StripPlain(s: string)
    requires s != [] && s[0] != '#' && s[0] != '"' && !(s[0] == '/' && |s| >= 2 && s[1] == '*')
    ensures Strip(s) == [s[0]] + Strip(s[1..])
  {
  }

  lemma TransparentLine(p: Plain, s: string)
    requires p.fault.None? && !Quoted(p.state) && s != [] && s[|s| - 1] == '\n' && s[0] == '#'
    ensures Outcome(Feed(At(p), s)) == MainRun(p, Strip(s))
    decreases |s|, 0
  {
    hide MainTable, LineTable, BlockTable, Send, MainStep, Feed;
    var r := FromNewline(s[1..]);
    FeedOne(At(p), s);
    SendOpen(p);
    FeedLine(p, s[1..]);
    if r == [] {
      FeedNil(Inside(p, LINE));
    } else {
      FeedOne(Inside(p, LINE), r);
      SendLine(p, '\n');
      StripPlain(r);
      if MainStep(p, '\n').fault.None? { Transparent(MainStep(p, '\n'), r[1..]); }
      ThenRest(Send(Inside(p, LINE), '\n'), p, '\n', r[1..]);
    }
  }

  lemma TransparentSlash(p: Plain, s: string)
    requires p.fault.None? && !Quoted(p.state) && s != [] && s[|s| - 1] == '\n' && s[0] == '/'
    ensures Outcome(Feed(At(p), s)) == MainRun(p, Strip(s))
    decreases |s|, 0
  {
    hide MainTable, LineTable, BlockTable, Send, MainStep, Feed;
    FeedOne(At(p), s);
    SendOpen(p);
    assert |s| >= 2;
    FeedOne(Inside(p, BLOCK_SLASH), s[1..]);
    assert s[1..][1..] == s[2..];
    if s[1] == '*' {
      SendBlock(p, '*');
      FeedBlock(p, s[2..]);
      Transparent(p, AfterClose(s[2..]));
    } else {
      SendSlash(p, s[1]);
      StripPlain(s);
      var g := Send(Inside(p, BLOCK_SLASH), s[1]);
      FeedEnd(g, s[2..]);
      MainStuck(MainStep(p, '/'), Strip(s[1..]));
      assert Strip(s)[1..] == Strip(s[1..]);
    }
  }

  lemma SplitFront(s: string, n: nat)
    requires n < |s|
    ensures s[..n + 1] == [s[0]] + s[1..][..n] && s[1..] == s[1..][..n] + s[n + 1..]
  {
  }

  lemma Regroup(a: string, b: string, c: string)
    ensures (a + b) + c == a + (b + c) && (|a| == 1 ==> (a + (b + c))[1..] == b + c)
  {
  }

  lemma StripQuote(s: string)
    requires s != [] && s[0] == '"'
    ensures Strip(s) == s[..QuotedLength(s[1..]) + 1] + Strip(s[QuotedLength(s[1..]) + 1..])
  {
    hide QuotedLength;
  }

  lemma TransparentQuote(p: Plain, s: string)
    requires p.fault.None? && !Quoted(p.state) && s != [] && s[|s| - 1] == '\n' && s[0] == '"'
    ensures Outcome(Feed(At(p), s)) == MainRun(p, Strip(s))
    decreases |s|, 0
  {
    hide MainTable, LineTable, BlockTable, Send, MainStep, Feed, Trigger, Strip, QuotedLength;
    var n := QuotedLength(s[1..]);
    var body, rest := s[1..][..n], s[n + 1..];
    var p' := MainStep(p, '"');
    TriggerIs('"');
    SendMain(p, '"');
    FeedOne(At(p), s);
    StripQuote(s);
    SplitFront(s, n);
    Regroup(['"'], body, Strip(rest));
    if p'.fault.Some? {
      FeedEnd(At(p'), s[1..]);
      MainStuck(p', body + Strip(rest));
    } else {
      FeedBody(p', s[1..]);
      FeedAppend(At(p'), body, rest);
      MainAppend(p', body, Strip(rest));
      StripNil();
      if rest == [] { FeedNil(At(MainRun(p', body))); } else { Transparent(MainRun(p', body), rest); }
    }
  }

  /** process reads a configuration as if it had no comments. */
  lemma CommentsTransparent(text: string, f: Fields)
    ensures Outcome(Feed(Config([Machine(Main, OUT)], false, f, None), text + "\n")) ==
      MainRun(Plain(OUT, f, None), Strip(text + "\n"))
  {
    Transparent(Plain(OUT, f, None), text + "\n");
  }

  /** A whole reading: sections and syntax error are those of the main machine alone on
      the text without its comments. */
  method Read(text: string) returns (reader: Context)
    ensures fresh(reader)
    ensures
      Outcome(reader.State()) ==
        MainRun(Plain(OUT, Fields("", "", [], "", "", []), None), Strip(text + "\n"))
  {
    hide Feed, MainRun, Strip, Outcome;
    reader := new Context();
    ghost var f := reader.fields;
    reader.Process(text);
    CommentsTransparent(text, f);
  }

  // --- The shape of the stack ------------------------------------------

  lemma ShapeStep(g: Config, c: char)
    requires Shaped(g) && g.fault.None?
    ensures Shaped(Send(g, c))
  {
    hide MainTable, LineTable, BlockTable, Send, MainStep, Lookup;
    var p := Plain(g.machines[0].state, g.f, None);
    TriggerIs(c);
    if |g.machines| == 1 {
      assert g == At(p);
      if Quoted(p.state) || Trigger(c).None? { SendMain(p, c); } else { SendOpen(p); }
    } else {
      assert g == Inside(p, g.machines[1]);
      SendLine(p, c);
      SendBlock(p, c);
      if c != '*' { SendSlash(p, c); }
    }
  }

  lemma {:induction false} ShapeKept(g: Config, s: string)
    requires Shaped(g)
    ensures Shaped(Feed(g, s))
    decreases s
  {
    hide Send, Shaped;
    if s != [] && g.fault.None? {
      ShapeStep(g, s[0]);
      ShapeKept(Send(g, s[0]), s[1..]);
    }
  }
}
