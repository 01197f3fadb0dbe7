/** Escaping customer text for display: five replacement passes, and what they amount to. */
module Markup {

  type Escape = (char, string)

  /** Every markup-significant character and its entity, in the order the passes run. */
  const MARKUP_ESCAPES: seq<Escape> := [
    ('&', "&amp;"), ('<', "&lt;"), ('>', "&gt;"), ('"', "&quot;"), ('\'', "&#x27;")
  ]

  /** One replacement pass: every occurrence of a character, replaced by its entity. */
  function Replace(text: string, character: char, entity: string): string {
    if text == "" then ""
    else (if text[0] == character then entity else [text[0]]) + Replace(text[1..], character, entity)
  }

  /** The passes of a table, one after another. */
  function Passes(text: string, table: seq<Escape>): string
    decreases |table|
  {
    if table == [] then text else Passes(Replace(text, table[0].0, table[0].1), table[1..])
  }

  /** What one character becomes when all substitutions are made at once. */
  function EntityFor(c: char): string {
    match c
    case '&' => "&amp;"
    case '<' => "&lt;"
    case '>' => "&gt;"
    case '"' => "&quot;"
    case '\'' => "&#x27;"
    case _ => [c]
  }

  predicate Significant(c: char) { c == '&' || c == '<' || c == '>' || c == '"' || c == '\'' }

  /** The simultaneous substitution, character by character. */
  function Escaped(text: string): string {
    if text == "" then "" else EntityFor(text[0]) + Escaped(text[1..])
  }

  // ---- Passes work on each character by itself ----

  lemma {:induction false} ReplaceConcat(a: string, b: string, c: char, entity: string)
    ensures Replace(a + b, c, entity) == Replace(a, c, entity) + Replace(b, c, entity)
  {
    if a == "" {
      assert a + b == b;
    } else {
      ReplaceConcat(a[1..], b, c, entity);
      assert (a + b)[1..] == a[1..] + b;
    }
  }

  lemma {:induction false} PassesConcat(a: string, b: string, table: seq<Escape>)
    ensures Passes(a + b, table) == Passes(a, table) + Passes(b, table)
    decreases |table|
  {
    if table != [] {
      ReplaceConcat(a, b, table[0].0, table[0].1);
      PassesConcat(Replace(a, table[0].0, table[0].1), Replace(b, table[0].0, table[0].1), table[1..]);
    }
  }

  /** No character of the text is the key of any pass. */
  predicate Inert(text: string, table: seq<Escape>) {
    forall i, j :: 0 <= i < |text| && 0 <= j < |table| ==> text[i] != table[j].0
  }

  lemma {:induction false} ReplaceInert(text: string, c: char, entity: string)
    requires c !in text
    ensures Replace(text, c, entity) == text
  {
    if text != "" { ReplaceInert(text[1..], c, entity); }
  }

  lemma {:induction false} PassesInert(text: string, table: seq<Escape>)
    requires Inert(text, table)
    ensures Passes(text, table) == text
  {
    if table != [] {
      ReplaceInert(text, table[0].0, table[0].1);
      PassesInert(text, table[1..]);
    }
  }

  /** A character that is the key of pass i becomes that entity, as the passes after i leave it. */
  lemma {:induction false} PassesKey(table: seq<Escape>, i: nat)
    requires i < |table| && forall j :: 0 <= j < i ==> table[j].0 != table[i].0
    ensures Passes([table[i].0], table) == Passes(table[i].1, table[i + 1..])
  {
    var text := [table[i].0];
    assert text[1..] == "";
    if i == 0 {
      assert Replace(text, table[0].0, table[0].1) == table[0].1 + "" == table[0].1;
    } else {
      ReplaceInert(text, table[0].0, table[0].1);
      PassesKey(table[1..], i - 1);
      assert table[1..][i..] == table[i + 1..];
    }
  }

  // ---- The order of the passes ----

  /** The same five passes in some order. */
  predicate IsOrdering(table: seq<Escape>) {
    && |table| == |MARKUP_ESCAPES|
    && (forall e :: e in table ==> e in MARKUP_ESCAPES)
    && (forall e :: e in MARKUP_ESCAPES ==> e in table)
    && (forall i, j :: 0 <= i < j < |table| ==> table[i].0 != table[j].0)
  }

  lemma EntryMeaning(e: Escape)
    requires e in MARKUP_ESCAPES
    ensures Significant(e.0) && e.1 == EntityFor(e.0) && |e.1| > 1 && e.1[0] == '&'
    ensures forall i :: 0 < i < |e.1| ==> !Significant(e.1[i])
  {}

  lemma KeyPosition(table: seq<Escape>, c: char) returns (i: nat)
    requires IsOrdering(table) && Significant(c)
    ensures i < |table| && table[i] == (c, EntityFor(c))
  {
    var e := (c, EntityFor(c));
    var k := if c == '&' then 0 else if c == '<' then 1 else if c == '>' then 2 else if c == '"' then 3 else 4;
    assert MARKUP_ESCAPES[k] == e;
    assert e in MARKUP_ESCAPES;
    assert e in table;
    i :| 0 <= i < |table| && table[i] == e;
  }

  lemma TailsAreInert(table: seq<Escape>, i: nat)
    requires IsOrdering(table) && i < |table|
    ensures |table[i].1| > 0 && Inert(table[i].1[1..], table)
  {
    assert table[i] in table;
    EntryMeaning(table[i]);
    forall k, j | 0 <= k < |table[i].1[1..]| && 0 <= j < |table| ensures table[i].1[1..][k] != table[j].0 {
      EntryMeaning(table[j]);
    }
  }

  /** With the ampersand first, the passes make of each character what the substitution makes of it. */
  lemma AmpersandFirstPerCharacter(table: seq<Escape>, c: char)
    requires IsOrdering(table) && table[0].0 == '&'
    ensures Passes([c], table) == EntityFor(c)
  {
    if Significant(c) {
      var i := KeyPosition(table, c);
      PassesKey(table, i);
      TailsAreInert(table, i);
      EntryMeaning(table[i]);
      assert table[i].1 == ['&'] + table[i].1[1..];
      PassesInert(table[i].1, table[i + 1..]);
    } else {
      forall j | 0 <= j < |table| ensures table[j].0 != c { EntryMeaning(table[j]); }
      PassesInert([c], table);
    }
  }

  lemma {:induction false} AmpersandFirst(table: seq<Escape>, text: string)
    requires IsOrdering(table) && table[0].0 == '&'
    ensures Passes(text, table) == Escaped(text)
  {
    if text == "" {
      PassesInert("", table);
    } else {
      AmpersandFirstPerCharacter(table, text[0]);
      AmpersandFirst(table, text[1..]);
      PassesConcat([text[0]], text[1..], table);
      assert text == [text[0]] + text[1..];
    }
  }

  /** With any other pass first, the ampersand it introduces is escaped a second time. */
  lemma AmpersandLateDoublesUp(table: seq<Escape>)
    requires IsOrdering(table) && table[0].0 != '&'
    ensures Passes([table[0].0], table) != Escaped([table[0].0])
  {
    var first := table[0];
    EntryMeaning(first);
    PassesKey(table, 0);
    var rest := first.1[1..];
    assert first.1 == "&" + rest;
    PassesConcat("&", rest, table[1..]);
    TailsAreInert(table, 0);
    PassesInert(rest, table[1..]);
    var i := KeyPosition(table, '&');
    PassesKey(table[1..], i - 1);
    TailsAreInert(table, i);
    assert table[1..][i..] == table[i + 1..];
    assert "&amp;" == ['&'] + table[i].1[1..];
    PassesInert("&amp;", table[i + 1..]);
    assert [first.0][1..] == "";
  }

  /** The five passes are the simultaneous substitution on all texts exactly when the ampersand goes first. */
  lemma OrderMatters(table: seq<Escape>)
    requires IsOrdering(table)
    ensures (forall text :: Passes(text, table) == Escaped(text)) <==> table[0].0 == '&'
  {
    if table[0].0 == '&' {
      forall text ensures Passes(text, table) == Escaped(text) { AmpersandFirst(table, text); }
    } else {
      AmpersandLateDoublesUp(table);
    }
  }

  /** The program's loop: five passes in the table's order, equal to one substitution. */
  method EscapeMarkup(text: string) returns (escaped: string)
    ensures escaped == Escaped(text)
  {
    escaped := text;
    for k := 0 to |MARKUP_ESCAPES|
      invariant Passes(escaped, MARKUP_ESCAPES[k..]) == Passes(text, MARKUP_ESCAPES)
    {
      escaped := Replace(escaped, MARKUP_ESCAPES[k].0, MARKUP_ESCAPES[k].1);
      assert MARKUP_ESCAPES[k..][1..] == MARKUP_ESCAPES[k + 1..];
    }
    assert IsOrdering(MARKUP_ESCAPES);
    AmpersandFirst(MARKUP_ESCAPES, text);
  }

  // ---- What the escaped text is ----

  /** Escaping a whole is escaping its parts. */
  lemma EscapedConcat(a: string, b: string)
    ensures Escaped(a + b) == Escaped(a) + Escaped(b)
  {
    hide Passes, Escaped;
    assert IsOrdering(MARKUP_ESCAPES);
    AmpersandFirst(MARKUP_ESCAPES, a + b);
    AmpersandFirst(MARKUP_ESCAPES, a);
    AmpersandFirst(MARKUP_ESCAPES, b);
    PassesConcat(a, b, MARKUP_ESCAPES);
  }

  /** No tag can open or close, and no attribute value can end. */
  lemma {:induction false} NothingRaw(text: string)
    ensures forall i :: 0 <= i < |Escaped(text)| ==> Escaped(text)[i] !in {'<', '>', '"', '\''}
  {
    if text != "" { NothingRaw(text[1..]); }
  }

  /** A display of the escaped text: entities read left to right, everything else as it stands. */
  function Displayed(s: string): string {
    if s == "" then ""
    else if "&amp;" <= s then "&" + Displayed(s[5..])
    else if "&lt;" <= s then "<" + Displayed(s[4..])
    else if "&gt;" <= s then ">" + Displayed(s[4..])
    else if "&quot;" <= s then "\"" + Displayed(s[6..])
    else if "&#x27;" <= s then "'" + Displayed(s[6..])
    else [s[0]] + Displayed(s[1..])
  }

  /** What is displayed is what the customer typed, whatever it was. */
  lemma {:induction false} DisplayRestores(text: string)
    ensures Displayed(Escaped(text)) == text
  {
    if text != "" {
      var entity, rest := EntityFor(text[0]), Escaped(text[1..]);
      DisplayRestores(text[1..]);
      assert (entity + rest)[|entity|..] == rest;
      assert text == [text[0]] + text[1..];
      DisplayedEntity(text[0], rest);
    }
  }

  lemma DisplayedEntity(c: char, rest: string)
    ensures Displayed(EntityFor(c) + rest) == [c] + Displayed(rest)
  {
    var s := EntityFor(c) + rest;
    assert s[|EntityFor(c)|..] == rest;
    assert s[0] == EntityFor(c)[0];
    if Significant(c) {
      assert s[1] == EntityFor(c)[1];
      assert EntityFor(c) <= s;
    }
  }

  /** Two notes that escape alike are the same note. */
  lemma EscapingIsInjective(a: string, b: string)
    requires Escaped(a) == Escaped(b)
    ensures a == b
  {
    DisplayRestores(a);
    DisplayRestores(b);
  }

  predicate Plain(text: string) { forall i :: 0 <= i < |text| ==> !Significant(text[i]) }

  lemma {:induction false} EscapingGrows(text: string)
    ensures |Escaped(text)| >= |text|
    ensures Plain(text) ==> Escaped(text) == text
    ensures !Plain(text) ==> |Escaped(text)| > |text| && !Plain(Escaped(text))
  {
    if text != "" {
      EscapingGrows(text[1..]);
      var entity, rest := EntityFor(text[0]), Escaped(text[1..]);
      assert Plain(text) <==> !Significant(text[0]) && Plain(text[1..]);
      if Significant(text[0]) {
        assert Escaped(text)[0] == '&';
      } else if !Plain(rest) {
        var i :| 0 <= i < |rest| && Significant(rest[i]);
        assert Escaped(text)[i + 1] == rest[i];
      }
    }
  }

  /** Escaping again changes the text exactly when escaping changed it: it is for one place, and not to be repeated. */
  lemma EscapingTwice(text: string)
    ensures Escaped(Escaped(text)) == Escaped(text) <==> Plain(text)
    ensures Escaped(text) == text <==> Plain(text)
  {
    EscapingGrows(text);
    EscapingGrows(Escaped(text));
  }
}
