/** What a configuration text says: the sections that the whole stack of machines shows
    for it are those that the grammar gives. */
module ConfMeaning {
  import opened Options
  import opened ConfMachine
  import opened ConfComments
  import opened ConfSteps
  import opened ConfGrammar

  // --- What a text says ------------------------------------------------

  /** Text s is made of whole sections, and says L. */
  ghost predicate Says(s: string, L: seq<Section>)
  {
    exists bs: seq<Block>, end: string :: AllOk(bs) && Blanks(end) && s == Written(bs) + end && SectionsOf(bs) == L
  }

  /** The main table alone: read to the end, between two sections, and L shown. */
  predicate Reads(r: Plain, f0: Fields, L: seq<Section>)
  {
    r.fault.None? && r.state == OUT && r.f.shown == f0.shown + L
  }

  lemma AtTheEnd(end: string)
    requires Blanks(end)
    ensures StartOk(FRESH.(b := FRESH.b.(before := end))) && StartText(FRESH.(b := FRESH.b.(before := end))) == end
  {
  }

  /** The main table reads exactly the texts of the grammar, and shows what they say. */
  lemma ReadsExactly(f0: Fields, s: string, L: seq<Section>)
    ensures Reads(MainRun(Plain(OUT, f0, None), s), f0, L) <==> Says(s, L)
  {
    hide MainRun, AllOk, Written, SectionsOf, StartText;
    var r := MainRun(Plain(OUT, f0, None), s);
    if Reads(r, f0, L) {
      var done, x := Parsed(f0, s);
      assert f0.shown + SectionsOf(done) == f0.shown + L;
      SameTail(f0.shown, SectionsOf(done), L);
      OutText(x);
      assert s == Written(done) + x.b.before;
    }
    if Says(s, L) {
      var bs: seq<Block>, end: string :|
        AllOk(bs) && Blanks(end) && s == Written(bs) + end && SectionsOf(bs) == L;
      AtTheEnd(end);
      Accepted(f0, bs, FRESH.(b := FRESH.b.(before := end)));
    }
  }

  lemma SameTail<T>(a: seq<T>, b: seq<T>, c: seq<T>)
    requires a + b == a + c
    ensures b == c
  {
    assert (a + b)[|a|..] == b && (a + c)[|a|..] == c;
  }

  lemma OutText(x: Start)
    requires StartOk(x) && x.state == OUT
    ensures StartText(x) == x.b.before && Blanks(x.b.before)
  {
  }

  /** A syntax error is at the first character that continues no text of the grammar. */
  lemma FaultsExactly(f0: Fields, s: string)
    ensures MainRun(Plain(OUT, f0, None), s).fault.None? <==>
      exists done: seq<Block>, x: Start :: AllOk(done) && StartOk(x) && s == TextOf(done, x)
  {
    hide MainRun, AllOk, StartOk, TextOf, Noted;
    if MainRun(Plain(OUT, f0, None), s).fault.None? {
      var done, x := Parsed(f0, s);
    }
    if exists done: seq<Block>, x: Start :: AllOk(done) && StartOk(x) && s == TextOf(done, x) {
      var done: seq<Block>, x: Start :| AllOk(done) && StartOk(x) && s == TextOf(done, x);
      Accepted(f0, done, x);
    }
  }

  /** No text says two things. */
  lemma Unambiguous(s: string, L: seq<Section>, L': seq<Section>)
    requires Says(s, L) && Says(s, L')
    ensures L == L'
  {
    hide Says, MainRun;
    var f0 := Fields("", "", [], "", "", []);
    ReadsExactly(f0, s, L);
    ReadsExactly(f0, s, L');
    SameTail(f0.shown, L, L');
  }

  // --- What can be said ------------------------------------------------

  /** Names are identifiers, section values words, and property values any texts with no
      quote behind their first character. */
  predicate Plainly(x: Section)
  {
    && Identifier(x.name) && Word(x.value)
    && forall j :: 0 <= j < |x.properties| ==> Identifier(x.properties[j].0) && Quotable(x.properties[j].1)
  }

  predicate Expressible(L: seq<Section>)
  {
    forall k :: 0 <= k < |L| ==> Plainly(L[k])
  }

  function PropFor(p: (string, string)): Prop { Prop("", p.0, " ", "", Quoted(p.1, "")) }

  function BlockFor(x: Section): Block
  {
    var props := seq(|x.properties|, j requires 0 <= j < |x.properties| => PropFor(x.properties[j]));
    Block("", x.name, " ", x.value, props, "")
  }

  function BlocksFor(L: seq<Section>): seq<Block>
  {
    seq(|L|, k requires 0 <= k < |L| => BlockFor(L[k]))
  }

  lemma NothingThere()
    ensures Word("") && Blanks("")
  {
  }

  lemma BlockForSays(x: Section)
    ensures PropsOf(BlockFor(x).props) == x.properties
    ensures Plainly(x) ==> BlockOk(BlockFor(x))
  {
    hide Identifier, Quotable, Word;
    NothingThere();
    forall j | 0 <= j < |x.properties| ensures PropsOf(BlockFor(x).props)[j] == x.properties[j] {
      assert x.properties[j].1 + "" == x.properties[j].1;
    }
  }

  lemma QuotableContent(v: Value)
    requires ValueOk(v)
    ensures Quotable(Content(v))
  {
  }

  /** Some text says L exactly when L is expressible, and then each section can be written
      with quoted values. */
  lemma SayableExactly(L: seq<Section>)
    ensures Expressible(L) ==> AllOk(BlocksFor(L)) && SectionsOf(BlocksFor(L)) == L
    ensures (exists s: string :: Says(s, L)) <==> Expressible(L)
  {
    hide Identifier, Quotable, Word, BlockOk, PropsOf, BlockFor, Written;
    if Expressible(L) {
      forall k | 0 <= k < |L| ensures BlockOk(BlocksFor(L)[k]) && SectionsOf(BlocksFor(L))[k] == L[k] {
        BlockForSays(L[k]);
        BlockForNames(L[k]);
      }
      NothingThere();
      assert Says(Written(BlocksFor(L)) + "", L);
    }
    if s: string :| Says(s, L) {
      var bs: seq<Block>, end: string :|
        AllOk(bs) && Blanks(end) && s == Written(bs) + end && SectionsOf(bs) == L;
      BlocksExpress(bs);
    }
  }

  lemma BlockForNames(x: Section)
    ensures BlockFor(x).name == x.name && BlockFor(x).value == x.value
  {
  }

  lemma BlocksExpress(bs: seq<Block>)
    requires AllOk(bs)
    ensures Expressible(SectionsOf(bs))
  {
    hide Identifier, Quotable, Word, Blanks, Content, ValueOk;
    var L := SectionsOf(bs);
    forall k, j | 0 <= k < |L| && 0 <= j < |L[k].properties|
      ensures Identifier(L[k].properties[j].0) && Quotable(L[k].properties[j].1)
    {
      assert BlockOk(bs[k]) && PropOk(bs[k].props[j]);
      QuotableContent(bs[k].props[j].value);
    }
    forall k | 0 <= k < |L| ensures Identifier(L[k].name) && Word(L[k].value) { assert BlockOk(bs[k]); }
  }

  // --- With comments ---------------------------------------------------

  /** A text without comments goes through the whole stack as through the main table: what
      opens a comment is a syntax error there. */
  lemma {:induction false} NoComments(q: Plain, s: string)
    requires MainRun(q, s).fault.None?
    ensures q.fault.None? && Feed(At(q), s) == At(MainRun(q, s))
    decreases s
  {
    hide MainTable, LineTable, BlockTable, Send, MainStep, Trigger;
    if q.fault.Some? { MainStuck(q, s); }
    if s != [] {
      var c := s[0];
      if MainStep(q, c).fault.Some? { MainStuck(MainStep(q, c), s[1..]); }
      TriggerIs(c);
      if !ConfComments.Quoted(q.state) && Trigger(c).Some? { CommentFaults(q, c); }
      SendMain(q, c);
      NoComments(MainStep(q, c), s[1..]);
    }
  }

  lemma CommentFaults(q: Plain, c: char)
    requires q.fault.None? && !ConfComments.Quoted(q.state) && (c == '/' || c == '#')
    ensures MainStep(q, c).fault.Some?
  {
    hide MainTable, Lookup;
    MainRows();
  }

  /** Round trip: sections written out are read back, by the whole stack of machines. */
  lemma RoundTrip(bs: seq<Block>, end: string, f: Fields)
    requires AllOk(bs) && Blanks(end)
    ensures var g := Feed(Config([Machine(Main, OUT)], false, f, None), Written(bs) + end + "\n");
      g.fault.None? && g.f.shown == f.shown + SectionsOf(bs)
  {
    hide Feed, MainRun, Written, SectionsOf, AllOk;
    var s := Written(bs) + end + "\n";
    assert s == Written(bs) + (end + "\n") && Blanks(end + "\n");
    assert Says(s, SectionsOf(bs));
    ReadsExactly(f, s, SectionsOf(bs));
    NoComments(Plain(OUT, f, None), s);
  }

  /** process, on any text: it is read to its end with L shown exactly when without its
      comments it says L. */
  method Read(text: string) returns (reader: Context)
    ensures fresh(reader)
    ensures forall L: seq<Section> ::
      Reads(Outcome(reader.State()), Fields("", "", [], "", "", []), L) <==> Says(Strip(text + "\n"), L)
  {
    hide Feed, MainRun, Strip, Outcome, Says, Reads;
    reader := ConfComments.Read(text);
    forall L: seq<Section>
      ensures Reads(Outcome(reader.State()), Fields("", "", [], "", "", []), L) <==> Says(Strip(text + "\n"), L)
    {
      ReadsExactly(Fields("", "", [], "", "", []), Strip(text + "\n"), L);
    }
  }

  /** A line comment leaves its newline. */
  lemma {:induction false} LineComment(body: string, rest: string)
    requires forall k :: 0 <= k < |body| ==> body[k] != '\n'
    ensures Strip("#" + body + "\n" + rest) == "\n" + Strip(rest)
  {
    hide Strip;
    var s := "#" + body + "\n" + rest;
    ToNewline(body, rest);
    assert s[1..] == body + "\n" + rest;
    StripLine(s);
    assert ("\n" + rest)[1..] == rest;
    StripPlain("\n" + rest);
  }

  lemma StripLine(s: string)
    requires s != [] && s[0] == '#'
    ensures Strip(s) == Strip(FromNewline(s[1..]))
  {
  }

  lemma {:induction false} ToNewline(body: string, rest: string)
    requires forall k :: 0 <= k < |body| ==> body[k] != '\n'
    ensures FromNewline(body + "\n" + rest) == "\n" + rest
  {
    if body == [] {
      assert body + "\n" + rest == "\n" + rest;
    } else {
      assert (body + "\n" + rest)[1..] == body[1..] + "\n" + rest;
      ToNewline(body[1..], rest);
    }
  }

  /** A block comment leaves nothing. */
  lemma BlockComment(body: string, rest: string)
    requires forall k :: 0 <= k < |body| - 1 ==> !(body[k] == '*' && body[k + 1] == '/')
    ensures Strip("/*" + body + "*/" + rest) == Strip(rest)
  {
    var s := "/*" + body + "*/" + rest;
    assert s[2..] == body + "*/" + rest;
    ToClose(body, rest);
  }

  lemma {:induction false} ToClose(body: string, rest: string)
    requires forall k :: 0 <= k < |body| - 1 ==> !(body[k] == '*' && body[k + 1] == '/')
    ensures AfterClose(body + "*/" + rest) == rest
  {
    var s := body + "*/" + rest;
    if body == [] {
      assert s[2..] == rest;
    } else {
      assert s[1..] == body[1..] + "*/" + rest;
      assert s[1] == if |body| > 1 then body[1] else '*';
      ToClose(body[1..], rest);
    }
  }
}
