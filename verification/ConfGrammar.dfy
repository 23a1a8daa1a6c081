/** A grammar of configuration texts, given without the tables, and the proof that the
    main table reads exactly its texts. */
module ConfGrammar {
  import opened Options
  import opened ConfMachine
  import opened ConfComments
  import opened ConfSteps

  predicate Blanks(s: string) { forall k :: 0 <= k < |s| ==> IsBlank(s[k]) }

  predicate Word(s: string) { forall k :: 0 <= k < |s| ==> IsWord(s[k]) }

  /** A word that starts with a letter. */
  predicate Identifier(s: string) { s != [] && IsLetter(s[0]) && Word(s) }

  /** Quoted text: its first character may be anything, even a quote. */
  predicate Quotable(s: string) { s != [] && forall k :: 1 <= k < |s| ==> s[k] != '"' }

  // --- Texts -----------------------------------------------------------

  /** The value of a property. Behind the closing quote a word may follow, which belongs
      to the value too. */
  datatype Value = Bare(text: string) | Quoted(text: string, tail: string)

  /** A property, with the blanks around its parts. */
  datatype Prop = Prop(before: string, name: string, gap: string, after: string, value: Value)

  /** A section, with the blanks around its parts. */
  datatype Block = Block(before: string, name: string, gap: string, value: string, props: seq<Prop>, last: string)

  function WrittenValue(v: Value): string
  {
    match v case Bare(text) => text case Quoted(text, tail) => "\"" + text + "\"" + tail
  }

  /** A property up to its value. */
  function Lead(p: Prop): string { p.before + p.name + p.gap + "=" + p.after }

  function WrittenProp(p: Prop): string { Lead(p) + WrittenValue(p.value) + ";" }

  function WrittenProps(ps: seq<Prop>): string
  {
    if ps == [] then "" else WrittenProps(ps[..|ps| - 1]) + WrittenProp(ps[|ps| - 1])
  }

  /** A section up to its brace, and up to its last property. */
  function Title(b: Block): string { b.before + b.name + b.gap + b.value }

  function Body(b: Block): string { Title(b) + "{" + WrittenProps(b.props) }

  function WrittenBlock(b: Block): string { Body(b) + b.last + "}" }

  function Written(bs: seq<Block>): string
  {
    if bs == [] then "" else Written(bs[..|bs| - 1]) + WrittenBlock(bs[|bs| - 1])
  }

  predicate ValueOk(v: Value)
  {
    match v case Bare(text) => Identifier(text) case Quoted(text, tail) => Quotable(text) && Word(tail)
  }

  predicate PropOk(p: Prop)
  {
    Blanks(p.before) && Identifier(p.name) && Blanks(p.gap) && p.gap != [] && Blanks(p.after) && ValueOk(p.value)
  }

  /** Between the name and the brace there is at least one blank; the value, if there is
      one, stands right before the brace. */
  predicate BlockOk(b: Block)
  {
    && Blanks(b.before) && Identifier(b.name) && Blanks(b.gap) && b.gap != [] && Word(b.value) && Blanks(b.last)
    && forall k :: 0 <= k < |b.props| ==> PropOk(b.props[k])
  }

  predicate AllOk(bs: seq<Block>) { forall k :: 0 <= k < |bs| ==> BlockOk(bs[k]) }

  // --- What they say ---------------------------------------------------

  function Content(v: Value): string
  {
    match v case Bare(text) => text case Quoted(text, tail) => text + tail
  }

  function PropsOf(ps: seq<Prop>): seq<(string, string)>
  {
    seq(|ps|, k requires 0 <= k < |ps| => (ps[k].name, Content(ps[k].value)))
  }

  function SectionsOf(bs: seq<Block>): seq<Section>
  {
    seq(|bs|, k requires 0 <= k < |bs| => Section(bs[k].name, bs[k].value, PropsOf(bs[k].props)))
  }

  // --- A text that may end anywhere ------------------------------------

  /** How far a text has got into a further section b, and in that into a property p. */
  datatype Start = Start(state: nat, b: Block, p: Prop)

  const NOTHING: Prop := Prop("", "", "", "", Bare(""))
  const FRESH: Start := Start(OUT, Block("", "", "", "", [], ""), NOTHING)

  predicate InProp(state: nat) { PROP_NAME <= state <= 10 }

  /** The part of it that belongs to the property. */
  function PropText(x: Start): string
    requires InProp(x.state)
  {
    if x.state == PROP_NAME || x.state == PROP_NAME_FINISHED then x.p.before + x.p.name + x.p.gap
    else if x.state == PROP_VALUE then Lead(x.p)
    else if x.state == PROP_VALUE_QUOTED then Lead(x.p) + "\""
    else if x.state == PROP_VALUE_QUOTED_CONT then Lead(x.p) + ("\"" + x.p.value.text)
    else Lead(x.p) + WrittenValue(x.p.value)
  }

  function StartText(x: Start): string
  {
    if x.state == INSIDE_SECTION then Body(x.b) + x.b.last
    else if InProp(x.state) then Body(x.b) + PropText(x)
    else Title(x.b)
  }

  predicate TitleOk(state: nat, b: Block)
  {
    && Blanks(b.before) && b.props == [] && b.last == ""
    && (if state == OUT then b.name == "" else Identifier(b.name))
    && (if state == OUT || state == SECTION_NAME then b.gap == "" else Blanks(b.gap) && b.gap != [])
    && (if state == SECTION_VALUE then Word(b.value) && b.value != [] else b.value == "")
  }

  predicate LeadOk(state: nat, p: Prop)
  {
    && Blanks(p.before) && Identifier(p.name)
    && (if state == PROP_NAME then p.gap == "" else Blanks(p.gap) && p.gap != [])
    && Blanks(p.after)
  }

  predicate StartOk(x: Start)
  {
    if x.state == OUT || x.state == SECTION_NAME || x.state == SECTION_NAME_FINISHED || x.state == SECTION_VALUE
    then TitleOk(x.state, x.b)
    else
      && x.state <= 10 && BlockOk(x.b)
      && (x.state != INSIDE_SECTION ==> x.b.last == "" && LeadOk(x.state, x.p))
      && (x.state == PROP_VALUE_QUOTED_CONT ==> x.p.value.Quoted? && Quotable(x.p.value.text) && x.p.value.tail == "")
      && (x.state == PROP_VALUE_CONT ==> ValueOk(x.p.value))
  }

  function TextOf(done: seq<Block>, x: Start): string { Written(done) + StartText(x) }

  /** What the reader has noted by then: the sections shown are those that are complete. */
  predicate Noted(f0: Fields, done: seq<Block>, x: Start, f: Fields)
  {
    && f.shown == f0.shown + SectionsOf(done)
    && (x.state != OUT ==> f.name == x.b.name && f.value == x.b.value && f.properties == PropsOf(x.b.props))
    && (InProp(x.state) ==> f.propname == x.p.name)
    && (x.state == PROP_VALUE_CONT || x.state == PROP_VALUE_QUOTED_CONT ==> f.propval == Content(x.p.value))
  }

  /** The reader is at the end of that text. */
  predicate AtEnd(f0: Fields, done: seq<Block>, x: Start, q: Plain)
  {
    q.fault.None? && q.state == x.state && AllOk(done) && StartOk(x) && Noted(f0, done, x, q.f)
  }

  // --- Every text that is read is one of these --------------------------

  lemma Snoc(a: string, b: string, c: char)
    ensures (a + b) + [c] == a + (b + [c])
  {
  }

  /** One more character of the further section. */
  lemma GoesOn(done: seq<Block>, x: Start, x': Start, c: char)
    requires StartText(x') == StartText(x) + [c]
    ensures TextOf(done, x') == TextOf(done, x) + [c]
  {
    Snoc(Written(done), StartText(x), c);
  }

  lemma TitleGrows(b: Block, c: char)
    ensures b.name == "" && b.gap == "" && b.value == "" ==>
      Title(b.(before := b.before + [c])) == Title(b) + [c] && Title(b.(name := [c])) == Title(b) + [c]
    ensures b.gap == "" && b.value == "" ==>
      Title(b.(name := b.name + [c])) == Title(b) + [c] && Title(b.(gap := [c])) == Title(b) + [c]
    ensures b.value == "" ==>
      Title(b.(gap := b.gap + [c])) == Title(b) + [c] && Title(b.(value := [c])) == Title(b) + [c]
    ensures Title(b.(value := b.value + [c])) == Title(b) + [c]
  {
  }

  lemma ReadTitle(f0: Fields, done: seq<Block>, x: Start, q: Plain, c: char) returns (x': Start)
    requires AtEnd(f0, done, x, q) && MainStep(q, c).fault.None?
    requires x.state == OUT || x.state == SECTION_NAME || x.state == SECTION_NAME_FINISHED || x.state == SECTION_VALUE
    ensures AtEnd(f0, done, x', MainStep(q, c)) && TextOf(done, x') == TextOf(done, x) + [c]
  {
    hide MainStep, Title, SectionsOf, AllOk, TextOf;
    var b := x.b;
    TitleGrows(b, c);
    NoProps();
    if x.state == OUT {
      AtOut(q, c);
      x' := if IsBlank(c) then x.(b := b.(before := b.before + [c]))
            else x.(state := SECTION_NAME, b := b.(name := [c]));
    } else if x.state == SECTION_NAME {
      AtName(q, c);
      x' := if IsBlank(c) then x.(state := SECTION_NAME_FINISHED, b := b.(gap := [c]))
            else x.(b := b.(name := b.name + [c]));
    } else if c == '{' {
      if x.state == SECTION_NAME_FINISHED { AtNameFinished(q, c); } else { AtSectionValue(q, c); }
      x' := x.(state := INSIDE_SECTION);
      BodyOpens(b);
    } else if x.state == SECTION_NAME_FINISHED {
      AtNameFinished(q, c);
      x' := if IsBlank(c) then x.(b := b.(gap := b.gap + [c]))
            else x.(state := SECTION_VALUE, b := b.(value := [c]));
    } else {
      AtSectionValue(q, c);
      x' := x.(b := b.(value := b.value + [c]));
    }
    GoesOn(done, x, x', c);
  }

  lemma NoProps()
    ensures PropsOf([]) == [] && WrittenProps([]) == "" && SectionsOf([]) == [] && Written([]) == ""
  {
  }

  lemma BodyOpens(b: Block)
    requires b.props == [] && b.last == ""
    ensures Body(b) + b.last == Title(b) + ['{']
  {
  }

  lemma BodySame(b: Block, last: string)
    ensures Body(b.(last := last)) == Body(b)
  {
  }

  lemma WrittenMore(done: seq<Block>, b: Block)
    ensures Written(done + [b]) == Written(done) + WrittenBlock(b)
    ensures SectionsOf(done + [b]) == SectionsOf(done) + [Section(b.name, b.value, PropsOf(b.props))]
  {
    assert (done + [b])[..|done|] == done;
  }

  /** A section ends. */
  lemma ReadClose(f0: Fields, done: seq<Block>, x: Start, q: Plain)
    requires AtEnd(f0, done, x, q) && x.state == INSIDE_SECTION
    ensures AtEnd(f0, done + [x.b], FRESH, MainStep(q, '}')) && TextOf(done + [x.b], FRESH) == TextOf(done, x) + ['}']
  {
    hide MainStep, Body, SectionsOf, PropsOf, Written;
    AtInside(q, '}');
    WrittenMore(done, x.b);
    Snoc(Written(done), Body(x.b) + x.b.last, '}');
    assert "}" == ['}'];
    assert f0.shown + (SectionsOf(done) + [Section(x.b.name, x.b.value, PropsOf(x.b.props))]) ==
      (f0.shown + SectionsOf(done)) + [Section(x.b.name, x.b.value, PropsOf(x.b.props))];
  }

  lemma ReadInside(f0: Fields, done: seq<Block>, x: Start, q: Plain, c: char)
      returns (done': seq<Block>, x': Start)
    requires AtEnd(f0, done, x, q) && x.state == INSIDE_SECTION && MainStep(q, c).fault.None?
    ensures AtEnd(f0, done', x', MainStep(q, c)) && TextOf(done', x') == TextOf(done, x) + [c]
  {
    hide MainStep, Body, SectionsOf, AllOk, TextOf, Written;
    AtInside(q, c);
    var b := x.b;
    done' := done;
    Snoc(Body(b), b.last, c);
    if IsBlank(c) {
      x' := x.(b := b.(last := b.last + [c]));
      BodySame(b, b.last + [c]);
      GoesOn(done, x, x', c);
    } else if IsLetter(c) {
      x' := Start(PROP_NAME, b.(last := ""), NOTHING.(before := b.last, name := [c]));
      BodySame(b, "");
      assert b.last + [c] == b.last + [c] + "";
      GoesOn(done, x, x', c);
    } else {
      ReadClose(f0, done, x, q);
      done', x' := done + [b], FRESH;
    }
  }

  lemma LeadGrows(p: Prop, c: char)
    ensures p.gap == "" ==>
      && p.before + (p.name + [c]) + p.gap == (p.before + p.name + p.gap) + [c]
      && p.before + p.name + [c] == (p.before + p.name + p.gap) + [c]
    ensures p.before + p.name + (p.gap + [c]) == (p.before + p.name + p.gap) + [c]
    ensures p.after == "" ==> Lead(p) == (p.before + p.name + p.gap) + ['=']
    ensures Lead(p.(after := p.after + [c])) == Lead(p) + [c]
  {
  }

  lemma ReadLead(f0: Fields, done: seq<Block>, x: Start, q: Plain, c: char) returns (x': Start)
    requires AtEnd(f0, done, x, q) && MainStep(q, c).fault.None?
    requires x.state == PROP_NAME || x.state == PROP_NAME_FINISHED
    ensures AtEnd(f0, done, x', MainStep(q, c)) && TextOf(done, x') == TextOf(done, x) + [c]
  {
    hide MainStep, Body, Lead, SectionsOf, AllOk, TextOf, BlockOk;
    var p := x.p;
    LeadGrows(p, c);
    Snoc(Body(x.b), p.before + p.name + p.gap, c);
    if x.state == PROP_NAME {
      AtPropName(q, c);
      x' := if IsBlank(c) then x.(state := PROP_NAME_FINISHED, p := p.(gap := [c]))
            else x.(p := p.(name := p.name + [c]));
    } else {
      AtPropNameFinished(q, c);
      x' := if IsBlank(c) then x.(p := p.(gap := p.gap + [c])) else x.(state := PROP_VALUE, p := p.(after := ""));
      LeadGrows(x'.p, c);
    }
    GoesOn(done, x, x', c);
  }

  lemma LeadSame(p: Prop, v: Value)
    ensures Lead(p.(value := v)) == Lead(p)
  {
  }

  lemma ReadPropValue(f0: Fields, done: seq<Block>, x: Start, q: Plain, c: char) returns (x': Start)
    requires AtEnd(f0, done, x, q) && MainStep(q, c).fault.None? && x.state == PROP_VALUE
    ensures AtEnd(f0, done, x', MainStep(q, c)) && TextOf(done, x') == TextOf(done, x) + [c]
  {
    hide MainStep, Body, Lead, SectionsOf, AllOk, TextOf, BlockOk;
    var p := x.p;
    AtPropValue(q, c);
    LeadGrows(p, c);
    LeadSame(p, Bare([c]));
    Snoc(Body(x.b), Lead(p), c);
    assert "\"" == ['"'];
    x' := if IsBlank(c) then x.(p := p.(after := p.after + [c]))
          else if IsLetter(c) then x.(state := PROP_VALUE_CONT, p := p.(value := Bare([c])))
          else x.(state := PROP_VALUE_QUOTED);
    GoesOn(done, x, x', c);
  }

  lemma ReadQuoted(f0: Fields, done: seq<Block>, x: Start, q: Plain, c: char) returns (x': Start)
    requires AtEnd(f0, done, x, q) && MainStep(q, c).fault.None?
    requires x.state == PROP_VALUE_QUOTED || x.state == PROP_VALUE_QUOTED_CONT
    ensures AtEnd(f0, done, x', MainStep(q, c)) && TextOf(done, x') == TextOf(done, x) + [c]
  {
    hide MainStep, Body, Lead, SectionsOf, AllOk, TextOf, BlockOk;
    var p := x.p;
    if x.state == PROP_VALUE_QUOTED {
      AtQuoted(q, c);
      x' := x.(state := PROP_VALUE_QUOTED_CONT, p := p.(value := Quoted([c], "")));
      LeadSame(p, Quoted([c], ""));
      Snoc(Lead(p), "\"", c);
      Snoc(Body(x.b), Lead(p) + "\"", c);
      assert [c] + "" == [c];
    } else {
      var text := p.value.text;
      AtQuotedCont(q, c);
      x' := if c == '"' then x.(state := PROP_VALUE_CONT)
            else x.(p := p.(value := Quoted(text + [c], "")));
      LeadSame(p, x'.p.value);
      Snoc("\"", text, c);
      Snoc(Lead(p), "\"" + text, c);
      Snoc(Body(x.b), Lead(p) + ("\"" + text), c);
      assert "\"" == ['"'] && text + [c] + "" == text + [c] && text + "" == text;
      assert "\"" + text + "\"" + "" == ("\"" + text) + ['"'];
    }
    GoesOn(done, x, x', c);
  }

  lemma PropsMore(b: Block, p: Prop)
    ensures Body(b.(props := b.props + [p])) == Body(b) + WrittenProp(p)
    ensures PropsOf(b.props + [p]) == PropsOf(b.props) + [(p.name, Content(p.value))]
  {
    var ps := b.props + [p];
    assert ps[..|b.props|] == b.props;
    assert (Title(b) + "{") + (WrittenProps(b.props) + WrittenProp(p)) ==
      ((Title(b) + "{") + WrittenProps(b.props)) + WrittenProp(p);
  }

  function ValueMore(v: Value, c: char): Value
  {
    match v case Bare(text) => Bare(text + [c]) case Quoted(text, tail) => Quoted(text, tail + [c])
  }

  lemma ValueGrows(v: Value, c: char)
    ensures WrittenValue(ValueMore(v, c)) == WrittenValue(v) + [c] && Content(ValueMore(v, c)) == Content(v) + [c]
    ensures ValueOk(v) && IsWord(c) ==> ValueOk(ValueMore(v, c))
  {
  }

  lemma ReadValueCont(f0: Fields, done: seq<Block>, x: Start, q: Plain, c: char) returns (x': Start)
    requires AtEnd(f0, done, x, q) && MainStep(q, c).fault.None? && x.state == PROP_VALUE_CONT
    ensures AtEnd(f0, done, x', MainStep(q, c)) && TextOf(done, x') == TextOf(done, x) + [c]
  {
    hide MainStep, Body, Lead, SectionsOf, AllOk, TextOf, PropsOf, WrittenValue, Content, ValueOk;
    var b, p := x.b, x.p;
    AtValueCont(q, c);
    Snoc(Lead(p), WrittenValue(p.value), c);
    Snoc(Body(b), Lead(p) + WrittenValue(p.value), c);
    if IsWord(c) {
      ValueGrows(p.value, c);
      LeadSame(p, ValueMore(p.value, c));
      x' := x.(p := p.(value := ValueMore(p.value, c)));
    } else {
      x' := x.(state := INSIDE_SECTION, b := b.(props := b.props + [p]));
      PropsMore(b, p);
      assert ";" == [';'];
      assert Body(x'.b) + "" == Body(x'.b);
    }
    GoesOn(done, x, x', c);
  }

  /** One more character, whatever the state. */
  lemma ReadOn(f0: Fields, done: seq<Block>, x: Start, q: Plain, c: char) returns (done': seq<Block>, x': Start)
    requires AtEnd(f0, done, x, q) && MainStep(q, c).fault.None?
    ensures AtEnd(f0, done', x', MainStep(q, c)) && TextOf(done', x') == TextOf(done, x) + [c]
  {
    hide MainStep, Noted, TextOf, AllOk, BlockOk, LeadOk, TitleOk, ValueOk;
    done' := done;
    if x.state == INSIDE_SECTION {
      done', x' := ReadInside(f0, done, x, q, c);
    } else if x.state <= SECTION_VALUE {
      x' := ReadTitle(f0, done, x, q, c);
    } else if x.state <= PROP_NAME_FINISHED {
      x' := ReadLead(f0, done, x, q, c);
    } else if x.state == PROP_VALUE {
      x' := ReadPropValue(f0, done, x, q, c);
    } else if x.state == PROP_VALUE_CONT {
      x' := ReadValueCont(f0, done, x, q, c);
    } else {
      x' := ReadQuoted(f0, done, x, q, c);
    }
  }

  /** A text that is read without a syntax error consists of whole sections and the start
      of a further one, and the reader has noted what they say. */
  lemma {:induction false} Parsed(f0: Fields, s: string) returns (done: seq<Block>, x: Start)
    requires MainRun(Plain(OUT, f0, None), s).fault.None?
    ensures AtEnd(f0, done, x, MainRun(Plain(OUT, f0, None), s)) && TextOf(done, x) == s
    decreases |s|
  {
    hide MainStep, AtEnd, TextOf;
    var q0 := Plain(OUT, f0, None);
    if s == [] {
      done, x := [], FRESH;
      NothingRead(f0);
    } else {
      var init, c := s[..|s| - 1], s[|s| - 1];
      assert s == init + [c];
      MainAppend(q0, init, [c]);
      RunOne(MainRun(q0, init), c);
      done, x := Parsed(f0, init);
      done, x := ReadOn(f0, done, x, MainRun(q0, init), c);
    }
  }

  lemma NothingRead(f0: Fields)
    ensures AtEnd(f0, [], FRESH, Plain(OUT, f0, None)) && TextOf([], FRESH) == ""
    ensures MainRun(Plain(OUT, f0, None), []) == Plain(OUT, f0, None)
  {
    assert f0.shown + [] == f0.shown;
  }

  lemma RunOne(q: Plain, c: char)
    ensures MainRun(q, [c]) == MainStep(q, c) && (q.fault.Some? ==> MainStep(q, c) == q)
  {
    hide Lookup, Handled;
    assert [c][1..] == [];
  }

  // --- All of these are read -------------------------------------------

  lemma {:induction false} RunBlanks(q: Plain, w: string)
    requires q.fault.None? && Blanks(w)
    requires q.state == OUT || q.state == SECTION_NAME_FINISHED || q.state == INSIDE_SECTION
      || q.state == PROP_NAME_FINISHED || q.state == PROP_VALUE
    ensures MainRun(q, w) == q
    decreases w
  {
    hide MainStep;
    if w != [] {
      if q.state == OUT { AtOut(q, w[0]); }
      if q.state == SECTION_NAME_FINISHED { AtNameFinished(q, w[0]); }
      if q.state == INSIDE_SECTION { AtInside(q, w[0]); }
      if q.state == PROP_NAME_FINISHED { AtPropNameFinished(q, w[0]); }
      if q.state == PROP_VALUE { AtPropValue(q, w[0]); }
      RunBlanks(q, w[1..]);
    }
  }

  /** The field that grows in this state. */
  function Grown(state: nat, f: Fields, w: string): Fields
  {
    if state == SECTION_NAME then f.(name := f.name + w)
    else if state == SECTION_VALUE then f.(value := f.value + w)
    else if state == PROP_NAME then f.(propname := f.propname + w)
    else f.(propval := f.propval + w)
  }

  lemma GrownTwice(state: nat, f: Fields, c: char, w: string)
    ensures Grown(state, Grown(state, f, [c]), w) == Grown(state, f, [c] + w) && Grown(state, f, []) == f
  {
    assert forall t: string :: (t + [c]) + w == t + ([c] + w);
    assert forall t: string :: t + [] == t;
  }

  lemma {:induction false} RunWord(q: Plain, w: string)
    requires q.fault.None?
    requires q.state == SECTION_NAME || q.state == SECTION_VALUE || q.state == PROP_NAME || q.state == PROP_VALUE_CONT
      || q.state == PROP_VALUE_QUOTED_CONT
    requires if q.state == PROP_VALUE_QUOTED_CONT then forall k :: 0 <= k < |w| ==> w[k] != '"' else Word(w)
    ensures MainRun(q, w) == q.(f := Grown(q.state, q.f, w))
    decreases w
  {
    hide MainStep;
    if w == [] {
      GrownTwice(q.state, q.f, ' ', []);
    } else {
      var c := w[0];
      if q.state == SECTION_NAME { AtName(q, c); }
      if q.state == SECTION_VALUE { AtSectionValue(q, c); }
      if q.state == PROP_NAME { AtPropName(q, c); }
      if q.state == PROP_VALUE_CONT { AtValueCont(q, c); }
      if q.state == PROP_VALUE_QUOTED_CONT { AtQuotedCont(q, c); }
      RunWord(q.(f := Grown(q.state, q.f, [c])), w[1..]);
      GrownTwice(q.state, q.f, c, w[1..]);
      assert [c] + w[1..] == w;
    }
  }

  /** A first character, then the rest of the word. */
  lemma RunFrom(q: Plain, w: string)
    requires w != [] && q.fault.None?
    ensures MainRun(q, w) == MainRun(MainStep(q, w[0]), w[1..]) && w == [w[0]] + w[1..]
  {
    hide MainStep;
  }

  lemma RunTitle(q: Plain, b: Block, state: nat)
    requires q.fault.None? && q.state == OUT && TitleOk(state, b)
    requires state == OUT || state == SECTION_NAME || state == SECTION_NAME_FINISHED || state == SECTION_VALUE
    ensures MainRun(q, Title(b)) ==
      if state == OUT then q else Plain(state, q.f.(name := b.name, value := b.value, properties := []), None)
  {
    hide MainStep, MainRun, Word, Blanks;
    MainAppend(q, b.before, b.name);
    MainAppend(q, b.before + b.name, b.gap);
    MainAppend(q, b.before + b.name + b.gap, b.value);
    RunBlanks(q, b.before);
    RunNone(MainRun(q, b.before + b.name));
    RunNone(MainRun(q, b.before + b.name + b.gap));
    if state == OUT {
      RunNone(q);
    } else {
      RunName(q, b.name);
      var q1 := MainRun(q, b.name);
      if state != SECTION_NAME {
        RunGap(q1, b.gap);
        if state == SECTION_VALUE { RunValueWord(MainRun(q1, b.gap), b.value); }
      }
    }
  }

  lemma RunNone(q: Plain)
    ensures MainRun(q, "") == q
  {
  }

  lemma TailOf(w: string)
    requires w != []
    ensures Word(w) ==> Word(w[1..])
    ensures Blanks(w) ==> Blanks(w[1..]) && IsBlank(w[0])
    ensures Word(w) ==> IsWord(w[0])
  {
  }

  lemma RunName(q: Plain, w: string)
    requires q.fault.None? && q.state == OUT && Identifier(w)
    ensures MainRun(q, w) == Plain(SECTION_NAME, q.f.(name := w, value := "", properties := []), None)
  {
    hide MainStep, MainRun, Word;
    TailOf(w);
    RunFrom(q, w);
    AtOut(q, w[0]);
    RunWord(MainStep(q, w[0]), w[1..]);
  }

  lemma RunGap(q: Plain, w: string)
    requires q.fault.None? && (q.state == SECTION_NAME || q.state == PROP_NAME) && Blanks(w) && w != []
    ensures MainRun(q, w) ==
      q.(state := if q.state == SECTION_NAME then SECTION_NAME_FINISHED else PROP_NAME_FINISHED)
  {
    hide MainStep, MainRun, Blanks;
    TailOf(w);
    RunFrom(q, w);
    if q.state == SECTION_NAME { AtName(q, w[0]); } else { AtPropName(q, w[0]); }
    RunBlanks(MainStep(q, w[0]), w[1..]);
  }

  lemma RunValueWord(q: Plain, w: string)
    requires q.fault.None? && q.state == SECTION_NAME_FINISHED && Word(w) && w != []
    ensures MainRun(q, w) == Plain(SECTION_VALUE, q.f.(value := w), None)
  {
    hide MainStep, MainRun, Word;
    TailOf(w);
    RunFrom(q, w);
    AtNameFinished(q, w[0]);
    RunWord(MainStep(q, w[0]), w[1..]);
  }

  /** A property up to the blanks behind its name. */
  lemma RunLead(q: Plain, p: Prop, state: nat)
    requires q.fault.None? && q.state == INSIDE_SECTION && LeadOk(state, p)
    ensures MainRun(q, p.before + p.name + p.gap) ==
      Plain(if p.gap == "" then PROP_NAME else PROP_NAME_FINISHED, q.f.(propname := p.name), None)
    ensures p.gap != "" ==> MainRun(q, Lead(p)) == Plain(PROP_VALUE, q.f.(propname := p.name), None)
  {
    hide MainStep, MainRun, Word, Blanks;
    MainAppend(q, p.before, p.name);
    MainAppend(q, p.before + p.name, p.gap);
    RunBlanks(q, p.before);
    RunPropName(q, p.name);
    var q1 := MainRun(q, p.name);
    if p.gap == "" {
      RunNone(q1);
    } else {
      RunGap(q1, p.gap);
      var q2 := MainRun(q1, p.gap);
      MainAppend(q, p.before + p.name + p.gap, "=");
      MainAppend(q, p.before + p.name + p.gap + "=", p.after);
      RunOne(q2, '=');
      AtPropNameFinished(q2, '=');
      RunBlanks(MainStep(q2, '='), p.after);
    }
  }

  lemma RunPropName(q: Plain, w: string)
    requires q.fault.None? && q.state == INSIDE_SECTION && Identifier(w)
    ensures MainRun(q, w) == Plain(PROP_NAME, q.f.(propname := w), None)
  {
    hide MainStep, MainRun, Word;
    TailOf(w);
    RunFrom(q, w);
    AtInside(q, w[0]);
    RunWord(MainStep(q, w[0]), w[1..]);
  }

  lemma RunQuotedText(q: Plain, text: string)
    requires q.fault.None? && q.state == PROP_VALUE && Quotable(text)
    ensures MainRun(q, "\"") == q.(state := PROP_VALUE_QUOTED)
    ensures MainRun(q, "\"" + text) == Plain(PROP_VALUE_QUOTED_CONT, q.f.(propval := text), None)
  {
    hide MainStep, MainRun;
    RunOne(q, '"');
    AtPropValue(q, '"');
    MainAppend(q, "\"", text);
    var q1 := q.(state := PROP_VALUE_QUOTED);
    RunFrom(q1, text);
    AtQuoted(q1, text[0]);
    RunWord(MainStep(q1, text[0]), text[1..]);
  }

  lemma RunValue(q: Plain, v: Value)
    requires q.fault.None? && q.state == PROP_VALUE && ValueOk(v)
    ensures MainRun(q, WrittenValue(v)) == Plain(PROP_VALUE_CONT, q.f.(propval := Content(v)), None)
  {
    hide MainStep, MainRun, Word;
    match v
    case Bare(w) =>
      TailOf(w);
      RunFrom(q, w);
      AtPropValue(q, w[0]);
      RunWord(MainStep(q, w[0]), w[1..]);
    case Quoted(text, tail) =>
      RunQuotedText(q, text);
      MainAppend(q, "\"" + text, "\"");
      MainAppend(q, "\"" + text + "\"", tail);
      var q1 := MainRun(q, "\"" + text);
      RunOne(q1, '"');
      AtQuotedCont(q1, '"');
      RunWord(MainStep(q1, '"'), tail);
  }

  lemma RunProp(q: Plain, p: Prop)
    requires q.fault.None? && q.state == INSIDE_SECTION && PropOk(p)
    ensures MainRun(q, WrittenProp(p)) ==
      Plain(INSIDE_SECTION, q.f.(propname := p.name, propval := Content(p.value),
                                 properties := q.f.properties + [(p.name, Content(p.value))]), None)
  {
    hide MainStep, MainRun, Word, Blanks, ValueOk, Content, WrittenValue, Lead;
    RunLead(q, p, PROP_VALUE);
    MainAppend(q, Lead(p), WrittenValue(p.value));
    var q1 := MainRun(q, Lead(p));
    RunValue(q1, p.value);
    MainAppend(q, Lead(p) + WrittenValue(p.value), ";");
    var q2 := MainRun(q1, WrittenValue(p.value));
    RunOne(q2, ';');
    AtValueCont(q2, ';');
  }

  /** Name, value and what was shown stay; the properties come behind those noted before. */
  lemma {:induction false} RunProps(q: Plain, ps: seq<Prop>)
    requires q.fault.None? && q.state == INSIDE_SECTION && forall k :: 0 <= k < |ps| ==> PropOk(ps[k])
    ensures var r := MainRun(q, WrittenProps(ps));
      && r.fault.None? && r.state == INSIDE_SECTION
      && r.f.name == q.f.name && r.f.value == q.f.value && r.f.shown == q.f.shown
      && r.f.properties == q.f.properties + PropsOf(ps)
    decreases |ps|
  {
    hide MainRun, PropOk, WrittenProp, Content;
    if ps == [] {
      RunNone(q);
      assert q.f.properties + PropsOf([]) == q.f.properties;
    } else {
      var init, p := ps[..|ps| - 1], ps[|ps| - 1];
      RunProps(q, init);
      MainAppend(q, WrittenProps(init), WrittenProp(p));
      RunProp(MainRun(q, WrittenProps(init)), p);
      assert PropsOf(ps) == PropsOf(init) + [(p.name, Content(p.value))];
      assert q.f.properties + (PropsOf(init) + [(p.name, Content(p.value))]) ==
        (q.f.properties + PropsOf(init)) + [(p.name, Content(p.value))];
    }
  }

  lemma RunBody(q: Plain, b: Block)
    requires q.fault.None? && q.state == OUT && BlockOk(b)
    ensures var r := MainRun(q, Body(b));
      && r.fault.None? && r.state == INSIDE_SECTION && r.f.shown == q.f.shown
      && r.f.name == b.name && r.f.value == b.value && r.f.properties == PropsOf(b.props)
  {
    hide MainStep, MainRun, Word, Blanks, PropOk, PropsOf;
    var state, bare := if b.value == "" then SECTION_NAME_FINISHED else SECTION_VALUE, b.(props := [], last := "");
    TitleSame(b);
    RunTitle(q, bare, state);
    var q1 := MainRun(q, Title(b));
    MainAppend(q, Title(b), "{");
    RunOne(q1, '{');
    if state == SECTION_VALUE { AtSectionValue(q1, '{'); } else { AtNameFinished(q1, '{'); }
    MainAppend(q, Title(b) + "{", WrittenProps(b.props));
    RunProps(MainStep(q1, '{'), b.props);
    assert [] + PropsOf(b.props) == PropsOf(b.props);
  }

  lemma TitleSame(b: Block)
    ensures Title(b.(props := [], last := "")) == Title(b)
  {
  }

  lemma RunBlock(q: Plain, b: Block)
    requires q.fault.None? && q.state == OUT && BlockOk(b)
    ensures var r := MainRun(q, WrittenBlock(b));
      && r.fault.None? && r.state == OUT
      && r.f.shown == q.f.shown + [Section(b.name, b.value, PropsOf(b.props))]
  {
    hide MainStep, MainRun, Word, Blanks, PropOk, PropsOf, Body;
    RunBody(q, b);
    var q1 := MainRun(q, Body(b));
    MainAppend(q, Body(b), b.last);
    RunBlanks(q1, b.last);
    MainAppend(q, Body(b) + b.last, "}");
    RunOne(q1, '}');
    AtInside(q1, '}');
  }

  lemma {:induction false} RunBlocks(q: Plain, bs: seq<Block>)
    requires q.fault.None? && q.state == OUT && AllOk(bs)
    ensures var r := MainRun(q, Written(bs));
      r.fault.None? && r.state == OUT && r.f.shown == q.f.shown + SectionsOf(bs)
    decreases |bs|
  {
    hide MainRun, BlockOk, WrittenBlock, PropsOf;
    if bs == [] {
      RunNone(q);
      assert q.f.shown + SectionsOf([]) == q.f.shown;
    } else {
      var init, b := bs[..|bs| - 1], bs[|bs| - 1];
      RunBlocks(q, init);
      MainAppend(q, Written(init), WrittenBlock(b));
      RunBlock(MainRun(q, Written(init)), b);
      assert init + [b] == bs;
      WrittenMore(init, b);
      assert q.f.shown + (SectionsOf(init) + [Section(b.name, b.value, PropsOf(b.props))]) ==
        (q.f.shown + SectionsOf(init)) + [Section(b.name, b.value, PropsOf(b.props))];
    }
  }

  /** The start of a further section. */
  lemma RunStart(q: Plain, x: Start)
    requires q.fault.None? && q.state == OUT && StartOk(x)
    ensures var r := MainRun(q, StartText(x));
      && r.fault.None? && r.state == x.state && r.f.shown == q.f.shown
      && (x.state != OUT ==> r.f.name == x.b.name && r.f.value == x.b.value && r.f.properties == PropsOf(x.b.props))
      && (InProp(x.state) ==> r.f.propname == x.p.name)
      && (x.state == PROP_VALUE_CONT || x.state == PROP_VALUE_QUOTED_CONT ==> r.f.propval == Content(x.p.value))
  {
    hide MainRun, BlockOk, Body, Lead, Title, PropsOf, WrittenValue, Content, ValueOk, Blanks, Quotable, Word;
    NoProps();
    var b, p := x.b, x.p;
    if x.state == INSIDE_SECTION {
      RunBody(q, b);
      MainAppend(q, Body(b), b.last);
      LastBlanks(b);
      RunBlanks(MainRun(q, Body(b)), b.last);
    } else if InProp(x.state) {
      RunBody(q, b);
      RunInProp(MainRun(q, Body(b)), x);
      MainAppend(q, Body(b), PropText(x));
    } else {
      RunTitle(q, b, x.state);
    }
  }

  lemma LastBlanks(b: Block)
    requires BlockOk(b)
    ensures Blanks(b.last)
  {
  }

  lemma RunInProp(q: Plain, x: Start)
    requires q.fault.None? && q.state == INSIDE_SECTION && StartOk(x) && InProp(x.state)
    ensures var r := MainRun(q, PropText(x));
      && r.fault.None? && r.state == x.state && r.f.shown == q.f.shown
      && r.f.name == q.f.name && r.f.value == q.f.value && r.f.properties == q.f.properties && r.f.propname == x.p.name
      && (x.state == PROP_VALUE_CONT || x.state == PROP_VALUE_QUOTED_CONT ==> r.f.propval == Content(x.p.value))
  {
    hide MainRun, BlockOk, Lead, WrittenValue, ValueOk, Blanks, Quotable, Word;
    var p := x.p;
    RunLead(q, p, x.state);
    if x.state != PROP_NAME && x.state != PROP_NAME_FINISHED {
      var q1 := MainRun(q, Lead(p));
      if x.state == PROP_VALUE_QUOTED {
        RunOne(q1, '"');
        AtPropValue(q1, '"');
        MainAppend(q, Lead(p), "\"");
      } else if x.state == PROP_VALUE_QUOTED_CONT {
        RunQuotedText(q1, p.value.text);
        MainAppend(q, Lead(p), "\"" + p.value.text);
        assert p.value.text + "" == p.value.text;
      } else if x.state == PROP_VALUE_CONT {
        RunValue(q1, p.value);
        MainAppend(q, Lead(p), WrittenValue(p.value));
      }
    }
  }

  /** Whole sections and the start of a further one are read without a syntax error. */
  lemma Accepted(f0: Fields, done: seq<Block>, x: Start)
    requires AllOk(done) && StartOk(x)
    ensures AtEnd(f0, done, x, MainRun(Plain(OUT, f0, None), TextOf(done, x)))
  {
    hide MainRun, AllOk, StartOk, SectionsOf, PropsOf, StartText, Written;
    var q0 := Plain(OUT, f0, None);
    RunBlocks(q0, done);
    MainAppend(q0, Written(done), StartText(x));
    RunStart(MainRun(q0, Written(done)), x);
  }
}
