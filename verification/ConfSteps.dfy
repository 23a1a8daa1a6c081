/** What the main table makes of a character in each of its states. */
module ConfSteps {
  import opened Options
  import opened ConfMachine
  import opened ConfTable
  import opened ConfComments

  // --- Characters ------------------------------------------------------

  predicate IsBlank(c: char) { c == ' ' || 9 <= c as int <= 13 }

  predicate IsLetter(c: char) { 'a' <= c <= 'z' || 'A' <= c <= 'Z' }

  predicate IsWord(c: char) { IsLetter(c) || '0' <= c <= '9' || c == '_' }

  /** No entry for the character. */
  function Bad(p: Plain, c: char): Plain { p.(fault := Some(Fault(p.state, c))) }

  lemma AtOut(p: Plain, c: char)
    requires p.fault.None? && p.state == OUT
    ensures MainStep(p, c) ==
      if IsBlank(c) then p
      else if IsLetter(c) then Plain(SECTION_NAME, p.f.(name := [c], value := "", properties := []), None)
      else Bad(p, c)
  {
    hide MainTable, Lookup;
    AllListed();
    NameRows();
  }

  lemma AtName(p: Plain, c: char)
    requires p.fault.None? && p.state == SECTION_NAME
    ensures MainStep(p, c) ==
      if IsBlank(c) then p.(state := SECTION_NAME_FINISHED)
      else if IsWord(c) then p.(f := p.f.(name := p.f.name + [c]))
      else Bad(p, c)
  {
    hide MainTable, Lookup;
    AllListed();
    NameRows();
  }

  lemma AtNameFinished(p: Plain, c: char)
    requires p.fault.None? && p.state == SECTION_NAME_FINISHED
    ensures MainStep(p, c) ==
      if IsBlank(c) then p
      else if c == '{' then p.(state := INSIDE_SECTION)
      else if IsWord(c) then Plain(SECTION_VALUE, p.f.(value := [c]), None)
      else Bad(p, c)
  {
    hide MainTable, Lookup;
    AllListed();
    TitleRows();
  }

  lemma AtSectionValue(p: Plain, c: char)
    requires p.fault.None? && p.state == SECTION_VALUE
    ensures MainStep(p, c) ==
      if c == '{' then p.(state := INSIDE_SECTION)
      else if IsWord(c) then p.(f := p.f.(value := p.f.value + [c]))
      else Bad(p, c)
  {
    hide MainTable, Lookup;
    AllListed();
    TitleRows();
  }

  lemma AtInside(p: Plain, c: char)
    requires p.fault.None? && p.state == INSIDE_SECTION
    ensures MainStep(p, c) ==
      if IsBlank(c) then p
      else if IsLetter(c) then Plain(PROP_NAME, p.f.(propname := [c]), None)
      else if c == '}' then
        Plain(OUT, p.f.(shown := p.f.shown + [Section(p.f.name, p.f.value, p.f.properties)]), None)
      else Bad(p, c)
  {
    hide MainTable, Lookup;
    AllListed();
    InsideRows();
  }

  lemma AtPropName(p: Plain, c: char)
    requires p.fault.None? && p.state == PROP_NAME
    ensures MainStep(p, c) ==
      if IsBlank(c) then p.(state := PROP_NAME_FINISHED)
      else if IsWord(c) then p.(f := p.f.(propname := p.f.propname + [c]))
      else Bad(p, c)
  {
    hide MainTable, Lookup;
    AllListed();
    PropNameRows();
  }

  lemma AtPropNameFinished(p: Plain, c: char)
    requires p.fault.None? && p.state == PROP_NAME_FINISHED
    ensures MainStep(p, c) ==
      if IsBlank(c) then p else if c == '=' then p.(state := PROP_VALUE) else Bad(p, c)
  {
    hide MainTable, Lookup;
    AllListed();
    PropNameRows();
  }

  lemma AtPropValue(p: Plain, c: char)
    requires p.fault.None? && p.state == PROP_VALUE
    ensures MainStep(p, c) ==
      if IsBlank(c) then p
      else if IsLetter(c) then Plain(PROP_VALUE_CONT, p.f.(propval := [c]), None)
      else if c == '"' then p.(state := PROP_VALUE_QUOTED)
      else Bad(p, c)
  {
    hide MainTable, Lookup;
    AllListed();
    PropValueRows();
  }

  lemma AtQuoted(p: Plain, c: char)
    requires p.fault.None? && p.state == PROP_VALUE_QUOTED
    ensures MainStep(p, c) == Plain(PROP_VALUE_QUOTED_CONT, p.f.(propval := [c]), None)
  {
    hide MainTable, Lookup;
    AllListed();
    ContentRows();
  }

  lemma AtQuotedCont(p: Plain, c: char)
    requires p.fault.None? && p.state == PROP_VALUE_QUOTED_CONT
    ensures MainStep(p, c) ==
      if c == '"' then p.(state := PROP_VALUE_CONT) else p.(f := p.f.(propval := p.f.propval + [c]))
  {
    hide MainTable, Lookup;
    AllListed();
    ContentRows();
  }

  lemma AtValueCont(p: Plain, c: char)
    requires p.fault.None? && p.state == PROP_VALUE_CONT
    ensures MainStep(p, c) ==
      if IsWord(c) then p.(f := p.f.(propval := p.f.propval + [c]))
      else if c == ';' then
        Plain(INSIDE_SECTION, p.f.(properties := p.f.properties + [(p.f.propname, p.f.propval)]), None)
      else Bad(p, c)
  {
    hide MainTable, Lookup;
    AllListed();
    ContentRows();
  }
}
