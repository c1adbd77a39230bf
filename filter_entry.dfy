/** One filter rule: three wildcard patterns and a hit counter, with its
    one-line persistence format `chan nick hits text`. */
module FilterEntry {
  import opened ZncString

  datatype Entry = Entry(chanPattern: string, nickPattern: string, textPattern: string, hits: ULong)

  /** A freshly created rule has not suppressed anything yet. */
  function NewEntry(chan: string, nick: string, text: string): (e: Entry)
    ensures e.hits == 0
    ensures e.chanPattern == chan && e.nickPattern == nick && e.textPattern == text
  {
    Entry(chan, nick, text, 0)
  }

  /** `hits++` on an `unsigned long`: wraps to 0 after ULONG_MAX. */
  function Hit(e: Entry): (r: Entry)
    ensures r.chanPattern == e.chanPattern && r.nickPattern == e.nickPattern
    ensures r.textPattern == e.textPattern
    ensures e.hits < ULongMax ==> r.hits == e.hits + 1
    ensures e.hits == ULongMax ==> r.hits == 0
  {
    e.(hits := (e.hits + 1) % ULongBase)
  }

  /** The four fields joined by single spaces, the text last so that it
      may itself contain spaces. */
  function Serialize(e: Entry): string {
    Join(" ", [e.chanPattern, e.nickPattern, Decimal(e.hits), e.textPattern])
  }

  /** Tokens 0, 1 and 2 are the channel, the nick and the hit count; the
      text is everything from token 3 on. */
  function Deserialize(line: string): Entry {
    Entry(Token(line, 0, false), Token(line, 1, false), Token(line, 3, true),
          ToULong(Token(line, 2, false)))
  }

  /** The shape of a rule that survives a save and a reload: channel and
      nick patterns are single non-empty words, the text does not start
      with a space, and nothing holds a newline. */
  predicate WellFormed(e: Entry) {
    && e.chanPattern != [] && ' ' !in e.chanPattern && '\n' !in e.chanPattern
    && e.nickPattern != [] && ' ' !in e.nickPattern && '\n' !in e.nickPattern
    && (e.textPattern == [] || e.textPattern[0] != ' ') && '\n' !in e.textPattern
  }

  lemma SerializeLayout(e: Entry)
    ensures Serialize(e)
         == e.chanPattern + ([' '] + (e.nickPattern + ([' '] + (Decimal(e.hits) + ([' '] + e.textPattern)))))
  {
    var c, n, d, t := e.chanPattern, e.nickPattern, Decimal(e.hits), e.textPattern;
    var parts := [c, n, d, t];
    assert parts[1..] == [n, d, t] && parts[1..][1..] == [d, t] && parts[1..][1..][1..] == [t];
    var j2 := Join(" ", [d, t]);
    assert [d, t][1..] == [t];
    assert Join(" ", [t]) == t;
    assert j2 == d + " " + t;
    assert j2 == d + ([' '] + t);
    var j1 := Join(" ", [n, d, t]);
    assert j1 == n + " " + j2;
    assert j1 == n + ([' '] + j2);
    assert Serialize(e) == c + " " + j1;
    assert Serialize(e) == c + ([' '] + j1);
  }

  /** A serialised rule is a single non-empty line. */
  lemma SerializeIsOneLine(e: Entry)
    requires WellFormed(e)
    ensures Serialize(e) != [] && '\n' !in Serialize(e)
  {
    SerializeLayout(e);
  }

  lemma DecimalHasNoSpace(n: nat)
    ensures ' ' !in Decimal(n)
  {
    var d := Decimal(n);
    forall i | 0 <= i < |d| ensures d[i] != ' ' {
      assert IsDigit(d[i]);
    }
  }

  /** Layout of a serialised rule: `line == c + " " + l1`,
      `l1 == n + " " + l2` and `l2 == d + " " + t`. */
  ghost predicate Layout(line: string, l1: string, l2: string, e: Entry) {
    && l2 == Decimal(e.hits) + ([' '] + e.textPattern)
    && l1 == e.nickPattern + ([' '] + l2)
    && line == e.chanPattern + ([' '] + l1)
  }

  lemma NickToken(line: string, l1: string, l2: string, e: Entry)
    requires WellFormed(e) && Layout(line, l1, l2, e)
    ensures Token(line, 1, false) == e.nickPattern
  {
    TokenAfterWord(e.chanPattern, l1, 0, false);
    FirstTokenOfWord(e.nickPattern, l2);
  }

  lemma HitsToken(line: string, l1: string, l2: string, e: Entry)
    requires WellFormed(e) && Layout(line, l1, l2, e)
    ensures Token(line, 2, false) == Decimal(e.hits)
  {
    DecimalHasNoSpace(e.hits);
    TokenAfterWord(e.chanPattern, l1, 1, false);
    TokenAfterWord(e.nickPattern, l2, 0, false);
    FirstTokenOfWord(Decimal(e.hits), e.textPattern);
  }

  lemma TextToken(line: string, l1: string, l2: string, e: Entry)
    requires WellFormed(e) && Layout(line, l1, l2, e)
    ensures Token(line, 3, true) == e.textPattern
  {
    DecimalHasNoSpace(e.hits);
    assert Token(line, 3, true) == Token(l1, 2, true) by {
      TokenAfterWord(e.chanPattern, l1, 2, true);
    }
    assert Token(l1, 2, true) == Token(l2, 1, true) by {
      TokenAfterWord(e.nickPattern, l2, 1, true);
    }
    assert Token(l2, 1, true) == Token(e.textPattern, 0, true) by {
      TokenAfterWord(Decimal(e.hits), e.textPattern, 0, true);
    }
    WholeRestOfUnspaced(e.textPattern);
  }

  /** Reading a serialised well-formed rule back gives the same rule,
      hit count included, also when the text contains spaces. */
  lemma DeserializeSerialize(e: Entry)
    requires WellFormed(e)
    ensures Deserialize(Serialize(e)) == e
  {
    var l2 := Decimal(e.hits) + ([' '] + e.textPattern);
    var l1 := e.nickPattern + ([' '] + l2);
    var line := e.chanPattern + ([' '] + l1);
    SerializeLayout(e);
    FirstTokenOfWord(e.chanPattern, l1);
    NickToken(line, l1, l2, e);
    HitsToken(line, l1, l2, e);
    ToULongOfDecimal(e.hits);
    TextToken(line, l1, l2, e);
  }
}
