/** The rows of the main table, state by state. */
module ConfTable {
  import opened ConfMachine

  predicate Listed(r: Row)
  {
    match r.node
    case 0 => r == Row(OUT, Space, OUT, Nothing) || r == Row(OUT, Begin, SECTION_NAME, NewSection)
    case 1 =>
      || r == Row(SECTION_NAME, Space, SECTION_NAME_FINISHED, Nothing)
      || r == Row(SECTION_NAME, Cont, SECTION_NAME, GrowName)
    case 2 =>
      || r == Row(SECTION_NAME_FINISHED, Space, SECTION_NAME_FINISHED, Nothing)
      || r == Row(SECTION_NAME_FINISHED, Only('{'), INSIDE_SECTION, Nothing)
      || r == Row(SECTION_NAME_FINISHED, Cont, SECTION_VALUE, NewValue)
    case 3 =>
      || r == Row(INSIDE_SECTION, Space, INSIDE_SECTION, Nothing)
      || r == Row(INSIDE_SECTION, Begin, PROP_NAME, NewProp)
      || r == Row(INSIDE_SECTION, Only('}'), OUT, ShowSection)
    case 4 =>
      || r == Row(SECTION_VALUE, Only('{'), INSIDE_SECTION, Nothing)
      || r == Row(SECTION_VALUE, Cont, SECTION_VALUE, GrowValue)
    case 5 =>
      || r == Row(PROP_NAME, Space, PROP_NAME_FINISHED, Nothing)
      || r == Row(PROP_NAME, Cont, PROP_NAME, GrowProp)
    case 6 =>
      || r == Row(PROP_NAME_FINISHED, Space, PROP_NAME_FINISHED, Nothing)
      || r == Row(PROP_NAME_FINISHED, Only('='), PROP_VALUE, Nothing)
    case 7 =>
      || r == Row(PROP_VALUE, Space, PROP_VALUE, Nothing)
      || r == Row(PROP_VALUE, Begin, PROP_VALUE_CONT, NewPropVal)
      || r == Row(PROP_VALUE, Only('"'), PROP_VALUE_QUOTED, QuoteOn)
    case 8 =>
      || r == Row(PROP_VALUE_CONT, Cont, PROP_VALUE_CONT, GrowPropVal)
      || r == Row(PROP_VALUE_CONT, Only(';'), INSIDE_SECTION, AddProp)
    case 9 => r == Row(PROP_VALUE_QUOTED, Any, PROP_VALUE_QUOTED_CONT, NewPropVal)
    case 10 =>
      || r == Row(PROP_VALUE_QUOTED_CONT, Only('"'), PROP_VALUE_CONT, QuoteOff)
      || r == Row(PROP_VALUE_QUOTED_CONT, Any, PROP_VALUE_QUOTED_CONT, GrowPropVal)
    case _ => false
  }

  lemma ListedFirst(i: nat)
    requires i < 12
    ensures |MainTable()| == 24 && Listed(MainTable()[i])
  {
  }

  lemma ListedLast(i: nat)
    requires 12 <= i < 24
    ensures |MainTable()| == 24 && Listed(MainTable()[i])
  {
  }

  lemma AllListed()
    ensures |MainTable()| == 24 && forall r :: r in MainTable() ==> Listed(r)
  {
    hide Listed, MainTable;
    ListedFirst(0);
    forall i: nat | i < 24 ensures Listed(MainTable()[i]) {
      if i < 12 { ListedFirst(i); } else { ListedLast(i); }
    }
  }

  lemma NameRows()
    ensures Row(OUT, Space, OUT, Nothing) in MainTable()
    ensures Row(OUT, Begin, SECTION_NAME, NewSection) in MainTable()
    ensures Row(SECTION_NAME, Space, SECTION_NAME_FINISHED, Nothing) in MainTable()
    ensures Row(SECTION_NAME, Cont, SECTION_NAME, GrowName) in MainTable()
  {
    hide Listed;
    AllListed();
    assert MainTable()[0] == Row(OUT, Space, OUT, Nothing);
    assert MainTable()[1] == Row(OUT, Begin, SECTION_NAME, NewSection);
    assert MainTable()[2] == Row(SECTION_NAME, Space, SECTION_NAME_FINISHED, Nothing);
    assert MainTable()[3] == Row(SECTION_NAME, Cont, SECTION_NAME, GrowName);
  }

  lemma TitleRows()
    ensures Row(SECTION_NAME_FINISHED, Space, SECTION_NAME_FINISHED, Nothing) in MainTable()
    ensures Row(SECTION_NAME_FINISHED, Only('{'), INSIDE_SECTION, Nothing) in MainTable()
    ensures Row(SECTION_NAME_FINISHED, Cont, SECTION_VALUE, NewValue) in MainTable()
    ensures Row(SECTION_VALUE, Only('{'), INSIDE_SECTION, Nothing) in MainTable()
    ensures Row(SECTION_VALUE, Cont, SECTION_VALUE, GrowValue) in MainTable()
  {
    hide Listed;
    AllListed();
    assert MainTable()[4] == Row(SECTION_NAME_FINISHED, Space, SECTION_NAME_FINISHED, Nothing);
    assert MainTable()[5] == Row(SECTION_NAME_FINISHED, Only('{'), INSIDE_SECTION, Nothing);
    assert MainTable()[6] == Row(SECTION_NAME_FINISHED, Cont, SECTION_VALUE, NewValue);
    assert MainTable()[7] == Row(SECTION_VALUE, Only('{'), INSIDE_SECTION, Nothing);
    assert MainTable()[8] == Row(SECTION_VALUE, Cont, SECTION_VALUE, GrowValue);
  }

  lemma InsideRows()
    ensures Row(INSIDE_SECTION, Space, INSIDE_SECTION, Nothing) in MainTable()
    ensures Row(INSIDE_SECTION, Begin, PROP_NAME, NewProp) in MainTable()
    ensures Row(INSIDE_SECTION, Only('}'), OUT, ShowSection) in MainTable()
  {
    hide Listed;
    AllListed();
    assert MainTable()[9] == Row(INSIDE_SECTION, Space, INSIDE_SECTION, Nothing);
    assert MainTable()[10] == Row(INSIDE_SECTION, Begin, PROP_NAME, NewProp);
    assert MainTable()[11] == Row(INSIDE_SECTION, Only('}'), OUT, ShowSection);
  }

  lemma PropNameRows()
    ensures Row(PROP_NAME, Space, PROP_NAME_FINISHED, Nothing) in MainTable()
    ensures Row(PROP_NAME, Cont, PROP_NAME, GrowProp) in MainTable()
    ensures Row(PROP_NAME_FINISHED, Space, PROP_NAME_FINISHED, Nothing) in MainTable()
    ensures Row(PROP_NAME_FINISHED, Only('='), PROP_VALUE, Nothing) in MainTable()
  {
    hide Listed;
    AllListed();
    assert MainTable()[12] == Row(PROP_NAME, Space, PROP_NAME_FINISHED, Nothing);
    assert MainTable()[13] == Row(PROP_NAME, Cont, PROP_NAME, GrowProp);
    assert MainTable()[14] == Row(PROP_NAME_FINISHED, Space, PROP_NAME_FINISHED, Nothing);
    assert MainTable()[15] == Row(PROP_NAME_FINISHED, Only('='), PROP_VALUE, Nothing);
  }

  lemma PropValueRows()
    ensures Row(PROP_VALUE, Space, PROP_VALUE, Nothing) in MainTable()
    ensures Row(PROP_VALUE, Begin, PROP_VALUE_CONT, NewPropVal) in MainTable()
    ensures Row(PROP_VALUE, Only('"'), PROP_VALUE_QUOTED, QuoteOn) in MainTable()
  {
    hide Listed;
    AllListed();
    assert MainTable()[16] == Row(PROP_VALUE, Space, PROP_VALUE, Nothing);
    assert MainTable()[17] == Row(PROP_VALUE, Begin, PROP_VALUE_CONT, NewPropVal);
    assert MainTable()[18] == Row(PROP_VALUE, Only('"'), PROP_VALUE_QUOTED, QuoteOn);
  }

  lemma ContentRows()
    ensures Row(PROP_VALUE_QUOTED, Any, PROP_VALUE_QUOTED_CONT, NewPropVal) in MainTable()
    ensures Row(PROP_VALUE_QUOTED_CONT, Only('"'), PROP_VALUE_CONT, QuoteOff) in MainTable()
    ensures Row(PROP_VALUE_QUOTED_CONT, Any, PROP_VALUE_QUOTED_CONT, GrowPropVal) in MainTable()
    ensures Row(PROP_VALUE_CONT, Cont, PROP_VALUE_CONT, GrowPropVal) in MainTable()
    ensures Row(PROP_VALUE_CONT, Only(';'), INSIDE_SECTION, AddProp) in MainTable()
  {
    hide Listed;
    AllListed();
    assert MainTable()[19] == Row(PROP_VALUE_QUOTED, Any, PROP_VALUE_QUOTED_CONT, NewPropVal);
    assert MainTable()[20] == Row(PROP_VALUE_QUOTED_CONT, Only('"'), PROP_VALUE_CONT, QuoteOff);
    assert MainTable()[21] == Row(PROP_VALUE_QUOTED_CONT, Any, PROP_VALUE_QUOTED_CONT, GrowPropVal);
    assert MainTable()[22] == Row(PROP_VALUE_CONT, Cont, PROP_VALUE_CONT, GrowPropVal);
    assert MainTable()[23] == Row(PROP_VALUE_CONT, Only(';'), INSIDE_SECTION, AddProp);
  }
}
