/** The message filter module: an ordered list of rules, the commands that
    edit it, the test applied to every channel message and notice, and the
    persistence of the list under the host key "Filters". */
module MyFilter {
  import opened ZncString
  import opened FilterEntry

  /** The verdict returned to the host for a message. */
  datatype ModRet = Continue | Halt

  /** Which of its two replies the `del` command prints. */
  datatype DelReply = FilterRemoved | BadIndex

  /** One row of the `list` table: Channel, Nickname, Hits, Message. */
  datatype Row = Row(channel: string, nickname: string, hits: string, message: string)

  datatype ListReport = NoFilters | Table(rows: seq<Row>)

  // ---------------------------------------------------------------------
  // Testing a message

  /** A rule matches when its channel, nick and text patterns all match. */
  predicate Matches(e: Entry, chan: string, nick: string, text: string) {
    WildCmp(e.chanPattern, chan) && WildCmp(e.nickPattern, nick) && WildCmp(e.textPattern, text)
  }

  /** Position `k` holds the earliest rule that matches. */
  predicate IsFirstMatch(es: seq<Entry>, k: nat, chan: string, nick: string, text: string) {
    && k < |es|
    && Matches(es[k], chan, nick, text)
    && forall j :: 0 <= j < k ==> !Matches(es[j], chan, nick, text)
  }

  /** The rule that wins for a message: the lowest-numbered matching one. */
  function FirstMatch(es: seq<Entry>, chan: string, nick: string, text: string): (r: Option<nat>)
    ensures r.Some? ==> IsFirstMatch(es, r.value, chan, nick, text)
    ensures r.None? <==> forall j :: 0 <= j < |es| ==> !Matches(es[j], chan, nick, text)
  {
    if es == [] then None
    else if Matches(es[0], chan, nick, text) then Some(0)
    else match FirstMatch(es[1..], chan, nick, text)
      case None => None
      case Some(k) => Some(k + 1)
  }

  /** The rules after a message was tested: the winner's counter goes up. */
  function AfterMessage(es: seq<Entry>, chan: string, nick: string, text: string): (r: seq<Entry>)
    ensures |r| == |es|
  {
    match FirstMatch(es, chan, nick, text)
    case None => es
    case Some(k) => es[k := Hit(es[k])]
  }

  /** The answer to the host: HALT exactly when some rule matches. */
  function Verdict(es: seq<Entry>, chan: string, nick: string, text: string): (r: ModRet)
    ensures r == Halt <==> exists k :: 0 <= k < |es| && Matches(es[k], chan, nick, text)
  {
    if FirstMatch(es, chan, nick, text).Some? then Halt else Continue
  }

  /** A message is halted exactly when some rule matches it; only the
      earliest matching rule changes, by one hit, and nothing else does. */
  lemma MessageTestEffect(es: seq<Entry>, chan: string, nick: string, text: string)
    ensures Verdict(es, chan, nick, text) == Halt
        <==> exists k :: 0 <= k < |es| && Matches(es[k], chan, nick, text)
    ensures |AfterMessage(es, chan, nick, text)| == |es|
    ensures forall k :: 0 <= k < |es| ==>
              AfterMessage(es, chan, nick, text)[k]
                == if IsFirstMatch(es, k, chan, nick, text) then Hit(es[k]) else es[k]
  {
    var r := FirstMatch(es, chan, nick, text);
    forall k | 0 <= k < |es|
      ensures AfterMessage(es, chan, nick, text)[k]
                == if IsFirstMatch(es, k, chan, nick, text) then Hit(es[k]) else es[k]
    {
      if IsFirstMatch(es, k, chan, nick, text) {
        FirstMatchUnique(es, k, r.value, chan, nick, text);
      }
    }
  }

  lemma FirstMatchUnique(es: seq<Entry>, k: nat, m: nat, chan: string, nick: string, text: string)
    requires IsFirstMatch(es, k, chan, nick, text) && IsFirstMatch(es, m, chan, nick, text)
    ensures k == m
  {
  }

  /** Order matters: of two rules that both match, the later one is never
      counted. */
  lemma EarlierRuleShadowsLater(es: seq<Entry>, i: nat, j: nat, chan: string, nick: string, text: string)
    requires i < j < |es|
    requires Matches(es[i], chan, nick, text) && Matches(es[j], chan, nick, text)
    ensures AfterMessage(es, chan, nick, text)[j] == es[j]
    ensures Verdict(es, chan, nick, text) == Halt
  {
    MessageTestEffect(es, chan, nick, text);
    assert !IsFirstMatch(es, j, chan, nick, text);
  }

  // ---------------------------------------------------------------------
  // Persistence

  function SerializeAll(es: seq<Entry>): seq<string> {
    Map(Serialize, es)
  }

  /** The value stored under "Filters": one serialised rule per line. */
  function Blob(es: seq<Entry>): string {
    Join("\n", SerializeAll(es))
  }

  function DecodeAll(lines: seq<string>): seq<Entry> {
    Map(Deserialize, lines)
  }

  /** The rules that loading appends for a stored value, if there is one. */
  function Loaded(stored: Option<string>): (r: seq<Entry>)
    ensures stored.None? ==> r == []
    ensures stored.Some? ==> |r| == |SplitLines(stored.value)|
  {
    match stored
    case None => []
    case Some(blob) => DecodeAll(SplitLines(blob))
  }

  predicate AllWellFormed(es: seq<Entry>) {
    forall i :: 0 <= i < |es| ==> WellFormed(es[i])
  }

  /** A saved list reads back as one line per rule. */
  lemma SplitBlob(es: seq<Entry>)
    requires AllWellFormed(es)
    ensures SplitLines(Blob(es)) == SerializeAll(es)
  {
    var lines := SerializeAll(es);
    forall i | 0 <= i < |es|
      ensures '\n' !in lines[i] && lines[i] != []
    {
      SerializeIsOneLine(es[i]);
    }
    SplitOfJoin(lines);
  }

  lemma DecodeAllSerializeAll(es: seq<Entry>)
    requires AllWellFormed(es)
    ensures DecodeAll(SerializeAll(es)) == es
  {
    var lines := SerializeAll(es);
    forall i | 0 <= i < |es|
      ensures DecodeAll(lines)[i] == es[i]
    {
      DeserializeSerialize(es[i]);
    }
  }

  /** Saving and loading again restores the rule list, in order, counters
      included. */
  lemma SaveLoadRoundTrip(es: seq<Entry>)
    requires AllWellFormed(es)
    ensures Loaded(Some(Blob(es))) == es
  {
    SplitBlob(es);
    DecodeAllSerializeAll(es);
  }

  // ---------------------------------------------------------------------
  // Commands

  /** The rule `add <chan> <nick> <text>` creates; `args` is the whole
      command line, so the channel is token 1. */
  function AddedEntry(args: string): (e: Entry)
    ensures e.hits == 0
    ensures ' ' !in e.chanPattern && ' ' !in e.nickPattern
    ensures e.textPattern == [] || e.textPattern[0] != ' '
  {
    NewEntry(Token(args, 1, false), Token(args, 2, false), Token(args, 3, true))
  }

  /** `add <chan> <nick> <text>` with a one-word channel and nick creates
      the rule with exactly those patterns and the whole rest of the line
      as its text pattern. */
  lemma AddedEntryOfWords(cmd: string, c: string, n: string, t: string)
    requires cmd != [] && ' ' !in cmd
    requires c != [] && ' ' !in c && n != [] && ' ' !in n
    requires t == [] || t[0] != ' '
    ensures AddedEntry(cmd + ([' '] + (c + ([' '] + (n + ([' '] + t)))))) == Entry(c, n, t, 0)
  {
    var l2 := n + ([' '] + t);
    var l1 := c + ([' '] + l2);
    var args := cmd + ([' '] + l1);
    assert Token(args, 1, false) == c by {
      TokenAfterWord(cmd, l1, 0, false);
      FirstTokenOfWord(c, l2);
    }
    assert Token(args, 2, false) == n by {
      TokenAfterWord(cmd, l1, 1, false);
      TokenAfterWord(c, l2, 0, false);
      FirstTokenOfWord(n, t);
    }
    assert Token(args, 3, true) == t by {
      TokenAfterWord(cmd, l1, 2, true);
      TokenAfterWord(c, l2, 1, true);
      TokenAfterWord(n, t, 0, true);
      WholeRestOfUnspaced(t);
    }
  }

  /** When the command names a channel and a nick, the rule it adds
      survives a save and a reload. */
  lemma AddedEntryWellFormed(args: string)
    requires '\n' !in args
    requires Token(args, 1, false) != [] && Token(args, 2, false) != []
    ensures WellFormed(AddedEntry(args))
  {
    TokenOfOneLine(args, 1, false);
    TokenOfOneLine(args, 2, false);
    TokenOfOneLine(args, 3, true);
  }

  /** `add` with the nick missing: the rule gets the empty nick pattern,
      which is saved as an empty field, and reloading reads the hit count
      in its place. */
  lemma AddWithoutNickIsNotRestored()
    ensures AddedEntry("add #chan").nickPattern == ""
    ensures Deserialize(Serialize(AddedEntry("add #chan"))).nickPattern == "0"
    ensures Loaded(Some(Blob([AddedEntry("add #chan")]))) == [Entry("#chan", "0", "", 0)]
  {
    ChanOnlyEntry();
    ChanOnlyLine();
    ChanOnlyLineNick();
    ChanOnlyLoaded();
  }

  lemma ChanOnlyLoaded()
    ensures Loaded(Some(Blob([Entry("#chan", "", "", 0)]))) == [Entry("#chan", "0", "", 0)]
  {
    var e := Entry("#chan", "", "", 0);
    assert Loaded(Some(Blob([e]))) == [Deserialize(Serialize(e))] by {
      OneRuleLoaded(e);
    }
    assert Serialize(e) == "#chan" + ([' '] + ([' '] + ("0" + [' ']))) by {
      ChanOnlyLine();
    }
    ChanOnlyLineDecoded();
  }

  /** A list of one rule is stored as that rule's line, and loading it
      decodes that line, whatever shape the rule has. */
  lemma OneRuleLoaded(e: Entry)
    requires '\n' !in e.chanPattern && '\n' !in e.nickPattern && '\n' !in e.textPattern
    ensures Loaded(Some(Blob([e]))) == [Deserialize(Serialize(e))]
  {
    var line := Serialize(e);
    assert '\n' !in line && line != [] by {
      var d := Decimal(e.hits);
      assert '\n' !in d by {
        forall i | 0 <= i < |d| ensures d[i] != '\n' {
          assert IsDigit(d[i]);
        }
      }
      SerializeLayout(e);
    }
    assert Blob([e]) == line by {
      assert SerializeAll([e]) == [line];
    }
    assert SplitLines(line) == [line] by {
      SplitOfJoin([line]);
    }
    assert DecodeAll([line]) == [Deserialize(line)];
  }

  lemma ChanOnlyEntry()
    ensures AddedEntry("add #chan") == Entry("#chan", "", "", 0)
  {
    assert "add #chan" == "add" + ([' '] + "#chan");
    assert ' ' !in "#chan" && ' ' !in "add";
    TokenAfterWord("add", "#chan", 0, false);
    TokenAfterWord("add", "#chan", 1, false);
    TokenAfterWord("add", "#chan", 2, true);
    SoleTokenOfWord("#chan");
    NoTokenAfterWord("#chan", 0, false);
    NoTokenAfterWord("#chan", 1, true);
  }

  lemma ChanOnlyLine()
    ensures Serialize(Entry("#chan", "", "", 0)) == "#chan" + ([' '] + ([' '] + ("0" + [' '])))
  {
    SerializeLayout(Entry("#chan", "", "", 0));
    assert Decimal(0) == "0";
  }

  lemma ChanOnlyLineNick()
    ensures Token("#chan" + ([' '] + ([' '] + ("0" + [' ']))), 1, false) == "0"
  {
    var l1 := [' '] + ("0" + [' ']);
    assert ' ' !in "#chan";
    TokenAfterWord("#chan", l1, 0, false);
    TokenStartOfSpace("0" + [' '], 0);
    assert "0" + [' '] == "0" + ([' '] + []);
    FirstTokenOfWord("0", []);
  }

  /** The stored line of `add #chan` reads back with the hit count as its
      nick pattern and with no text and no hits. */
  lemma ChanOnlyLineDecoded()
    ensures Deserialize("#chan" + ([' '] + ([' '] + ("0" + [' '])))) == Entry("#chan", "0", "", 0)
  {
    var tail := "0" + [' '];
    var l1 := [' '] + tail;
    assert ' ' !in "#chan";
    ChanOnlyLineNick();
    FirstTokenOfWord("#chan", l1);
    assert tail == "0" + ([' '] + []);
    assert Token("#chan" + ([' '] + l1), 2, false) == [] by {
      TokenAfterWord("#chan", l1, 1, false);
      TokenStartOfSpace(tail, 1);
      TokenStartAfterWord("0", [], 0);
      TokenStartOfEmpty(0);
    }
    assert Token("#chan" + ([' '] + l1), 3, true) == [] by {
      TokenAfterWord("#chan", l1, 2, true);
      TokenStartOfSpace(tail, 2);
      TokenStartAfterWord("0", [], 1);
      TokenStartOfEmpty(1);
    }
  }

  /** `add` that refuses a command without a channel or a nick. */
  function CheckedAddedEntry(args: string): (r: Option<Entry>)
    ensures r.Some? ==> r.value.hits == 0
    ensures r.None? <==> Token(args, 1, false) == [] || Token(args, 2, false) == []
  {
    if Token(args, 1, false) == [] || Token(args, 2, false) == [] then None
    else Some(AddedEntry(args))
  }

  /** Every rule the refusing `add` creates survives a save and a reload. */
  lemma CheckedAddedEntryWellFormed(args: string)
    requires '\n' !in args && CheckedAddedEntry(args).Some?
    ensures WellFormed(CheckedAddedEntry(args).value)
  {
    AddedEntryWellFormed(args);
  }

  /** With the refusing `add`, every rule list built by adding survives a
      save and a reload. */
  lemma CheckedAddKeepsRoundTrip(es: seq<Entry>, args: string)
    requires AllWellFormed(es) && '\n' !in args
    requires CheckedAddedEntry(args).Some?
    ensures AllWellFormed(es + [CheckedAddedEntry(args).value])
    ensures Loaded(Some(Blob(es + [CheckedAddedEntry(args).value])))
         == es + [CheckedAddedEntry(args).value]
  {
    var e := CheckedAddedEntry(args).value;
    var grown := es + [e];
    assert AllWellFormed(grown) by {
      CheckedAddedEntryWellFormed(args);
      forall i | 0 <= i < |grown| ensures WellFormed(grown[i]) {
        if i < |es| {
          assert grown[i] == es[i];
        }
      }
    }
    SaveLoadRoundTrip(grown);
  }

  /** The number the `del` command was given: token 1, read as an
      `unsigned long`. */
  function DelNumber(args: string): ULong {
    ToULong(Token(args, 1, false))
  }

  /** `n - 1` in `unsigned long` arithmetic. */
  function Pred(n: ULong): ULong {
    (n - 1) % ULongBase
  }

  /** The 0-based position `del` removes: 0 and non-numbers wrap around to
      ULONG_MAX. */
  function DelIndex(args: string): ULong {
    Pred(DelNumber(args))
  }

  /** A list size never exceeds ULONG_MAX, so the wrapped position is in
      range exactly when the number given is between 1 and the size, and
      then it is one less than that number. */
  lemma PredInRange(n: ULong, size: nat)
    requires size <= ULongMax
    ensures Pred(n) < size <==> 1 <= n <= size
    ensures 1 <= n ==> Pred(n) == n - 1
    ensures n == 0 ==> Pred(n) == ULongMax
  {
    if n == 0 {
      assert Pred(n) == ULongMax;
    } else {
      assert 0 <= n - 1 < ULongBase;
    }
  }

  /** `del` given something that is not a number (after optional white
      space and sign, no digit follows) always answers "Bad index". */
  lemma DelOfNonNumber(args: string, size: nat)
    requires size <= ULongMax
    requires var u := Unsigned(SkipCSpace(Token(args, 1, false))); u == [] || !IsDigit(u[0])
    ensures DelNumber(args) == 0 && DelIndex(args) == ULongMax
    ensures !(DelIndex(args) < size)
  {
    PredInRange(DelNumber(args), size);
  }

  /** `erase(begin() + i)`: the later rules move down by one. */
  function Removed(es: seq<Entry>, i: nat): (r: seq<Entry>)
    requires i < |es|
    ensures |r| == |es| - 1
    ensures forall j :: 0 <= j < i ==> r[j] == es[j]
    ensures forall j :: i <= j < |r| ==> r[j] == es[j + 1]
  {
    es[..i] + es[i + 1..]
  }

  function RowOf(e: Entry): Row {
    Row(e.chanPattern, e.nickPattern, Decimal(e.hits), e.textPattern)
  }

  // ---------------------------------------------------------------------
  // The module object

  class FilterModule {
    var entries: seq<Entry>
    /** The host's value under "Filters"; None when nothing was ever stored. */
    var filtersNV: Option<string>

    /** A module whose host storage holds `stored` from an earlier run. */
    constructor (stored: Option<string>)
      ensures entries == [] && filtersNV == stored
    {
      entries := [];
      filtersNV := stored;
    }

    method Save()
      modifies this
      ensures entries == old(entries)
      ensures filtersNV == Some(Blob(entries))
    {
      var lines: seq<string> := [];
      for k := 0 to |entries|
        invariant |lines| == k
        invariant forall j :: 0 <= j < k ==> lines[j] == Serialize(entries[j])
      {
        lines := lines + [Serialize(entries[k])];
      }
      assert lines == SerializeAll(entries);
      filtersNV := Some(Join("\n", lines));
    }

    method OnAddFilter(args: string)
      modifies this
      ensures entries == old(entries) + [AddedEntry(args)]
      ensures filtersNV == Some(Blob(entries))
    {
      entries := entries + [AddedEntry(args)];
      Save();
    }

    method OnDelFilter(args: string) returns (reply: DelReply)
      modifies this
      ensures reply == FilterRemoved <==> DelIndex(args) < |old(entries)|
      ensures reply == FilterRemoved ==> entries == Removed(old(entries), DelIndex(args))
      ensures reply == BadIndex ==> entries == old(entries)
      ensures |old(entries)| <= ULongMax ==>
                (reply == FilterRemoved <==> 1 <= DelNumber(args) <= |old(entries)|)
      ensures filtersNV == Some(Blob(entries))
    {
      var i := DelIndex(args);
      if i < |entries| {
        entries := Removed(entries, i);
        reply := FilterRemoved;
      } else {
        reply := BadIndex;
      }
      if |old(entries)| <= ULongMax {
        PredInRange(DelNumber(args), |old(entries)|);
      }
      Save();
    }

    method OnListFilters(args: string) returns (report: ListReport)
      modifies this
      ensures entries == old(entries)
      ensures report.NoFilters? <==> entries == []
      ensures report.Table? ==>
                |report.rows| == |entries| &&
                forall i :: 0 <= i < |entries| ==> report.rows[i] == RowOf(entries[i])
      ensures filtersNV == Some(Blob(entries))
    {
      if entries == [] {
        report := NoFilters;
      } else {
        var rows: seq<Row> := [];
        for k := 0 to |entries|
          invariant |rows| == k
          invariant forall j :: 0 <= j < k ==> rows[j] == RowOf(entries[j])
        {
          rows := rows + [RowOf(entries[k])];
        }
        report := Table(rows);
      }
      Save();
    }

    method OnModuleUnloading() returns (ret: ModRet, success: bool)
      modifies this
      ensures ret == Continue && success
      ensures entries == old(entries)
      ensures filtersNV == Some(Blob(entries))
    {
      Save();
      success := true;
      ret := Continue;
    }

    method OnChanTextMessage(chan: string, nick: string, text: string) returns (ret: ModRet)
      modifies this
      ensures ret == Verdict(old(entries), chan, nick, text)
      ensures entries == AfterMessage(old(entries), chan, nick, text)
      ensures filtersNV == old(filtersNV)
    {
      var i := 0;
      while i < |entries|
        invariant i <= |entries|
        invariant entries == old(entries) && filtersNV == old(filtersNV)
        invariant forall j :: 0 <= j < i ==> !Matches(entries[j], chan, nick, text)
      {
        var e := entries[i];
        if WildCmp(e.chanPattern, chan) && WildCmp(e.nickPattern, nick) && WildCmp(e.textPattern, text) {
          entries := entries[i := Hit(e)];
          ret := Halt;
          assert IsFirstMatch(old(entries), i, chan, nick, text);
          FirstMatchUnique(old(entries), i, FirstMatch(old(entries), chan, nick, text).value, chan, nick, text);
          return;
        }
        i := i + 1;
      }
      ret := Continue;
    }

    /** Notices are tested exactly as text messages are. */
    method OnChanNoticeMessage(chan: string, nick: string, text: string) returns (ret: ModRet)
      modifies this
      ensures ret == Verdict(old(entries), chan, nick, text)
      ensures entries == AfterMessage(old(entries), chan, nick, text)
      ensures filtersNV == old(filtersNV)
    {
      ret := OnChanTextMessage(chan, nick, text);
    }

    /** Appends one decoded rule per stored line, in line order; without a
        stored value nothing changes. */
    method OnLoad(args: string) returns (ok: bool)
      modifies this
      ensures ok
      ensures entries == old(entries) + Loaded(filtersNV)
      ensures filtersNV == old(filtersNV)
    {
      if filtersNV.Some? {
        var lines := SplitLines(filtersNV.value);
        ghost var start := entries;
        assert DecodeAll(lines[..0]) == [];
        for k := 0 to |lines|
          invariant filtersNV == old(filtersNV)
          invariant entries == start + DecodeAll(lines[..k])
        {
          MapGrows(Deserialize, lines, k);
          var e := Deserialize(lines[k]);
          assert DecodeAll(lines[..k + 1]) == DecodeAll(lines[..k]) + [e];
          AppendOne(start, DecodeAll(lines[..k]), e);
          entries := entries + [e];
        }
        assert lines[..|lines|] == lines;
      }
      ok := true;
    }
  }

  // ---------------------------------------------------------------------
  // Worked examples

  lemma SpamPatternExample()
    ensures WildCmp("*spam*", "buy spam now")
  {
    LowerOfNoCapitals("*spam*");
    LowerOfNoCapitals("buy spam now");
    assert Glob("spam*", "spam now") by {
      StarMatchesAll(" now");
      assert "spam*"[4..] == "*";
      assert "spam now"[4..] == " now";
    }
    StarThenSuffix("spam*", "buy ", "spam now");
    assert "buy " + "spam now" == "buy spam now";
    assert ['*'] + "spam*" == "*spam*";
  }

  lemma ChannelExample()
    ensures WildCmp("#chan", "#chan") && !WildCmp("#chan", "#other")
  {
    LowerOfNoCapitals("#chan");
    LowerOfNoCapitals("#other");
    assert IsLiteral("#chan");
    LiteralGlob("#chan", "#chan");
    LiteralGlob("#chan", "#other");
  }

  /** A rule for `#chan`, any nick and any text containing "spam". */
  lemma SpamExample()
    ensures var es := [NewEntry("#chan", "*", "*spam*")];
      && Verdict(es, "#chan", "bob", "buy spam now") == Halt
      && AfterMessage(es, "#chan", "bob", "buy spam now") == [Entry("#chan", "*", "*spam*", 1)]
      && Verdict(es, "#other", "bob", "buy spam now") == Continue
      && AfterMessage(es, "#other", "bob", "buy spam now") == es
  {
    SpamOnChannel([NewEntry("#chan", "*", "*spam*")]);
    SpamOnOtherChannel([NewEntry("#chan", "*", "*spam*")]);
  }

  lemma SpamOnChannel(es: seq<Entry>)
    requires es == [NewEntry("#chan", "*", "*spam*")]
    ensures FirstMatch(es, "#chan", "bob", "buy spam now") == Some(0)
  {
    SpamPatternExample();
    ChannelExample();
    WildCmpStarMatchesAll("bob");
    assert Matches(es[0], "#chan", "bob", "buy spam now");
  }

  lemma SpamOnOtherChannel(es: seq<Entry>)
    requires es == [NewEntry("#chan", "*", "*spam*")]
    ensures FirstMatch(es, "#other", "bob", "buy spam now") == None
  {
    ChannelExample();
    assert !Matches(es[0], "#other", "bob", "buy spam now");
  }

  /** `add #a nick1 hello`, `add #a nick2 world`, then `del 1`, sent to a
      freshly loaded module with nothing stored: only the second rule is
      left, and it is what the host now stores. */
  method AddAddDelScenario() returns (rules: seq<Entry>, reply: DelReply, stored: Option<string>)
    ensures reply == FilterRemoved
    ensures rules == [Entry("#a", "nick2", "world", 0)]
    ensures stored == Some(Blob(rules))
    ensures Loaded(stored) == rules
  {
    var m := new FilterModule(None);
    AddExample("nick1", "hello");
    AddExample("nick2", "world");
    DelOneExample();
    m.OnAddFilter("add #a " + "nick1" + " " + "hello");
    m.OnAddFilter("add #a " + "nick2" + " " + "world");
    reply := m.OnDelFilter("del 1");
    rules := m.entries;
    stored := m.filtersNV;
    SecondRuleWellFormed();
    SaveLoadRoundTrip(rules);
  }

  lemma SecondRuleWellFormed()
    ensures WellFormed(Entry("#a", "nick2", "world", 0))
  {
    assert ' ' !in "#a" && '\n' !in "#a";
    assert ' ' !in "nick2" && '\n' !in "nick2" && '\n' !in "world";
  }

  lemma AddExample(nick: string, text: string)
    requires nick != [] && ' ' !in nick && (text == [] || text[0] != ' ')
    ensures AddedEntry("add #a " + nick + " " + text) == Entry("#a", nick, text, 0)
  {
    assert ' ' !in "add" && ' ' !in "#a";
    assert "add #a " + nick + " " + text == "add" + ([' '] + ("#a" + ([' '] + (nick + ([' '] + text)))));
    AddedEntryOfWords("add", "#a", nick, text);
  }

  lemma DelOneExample()
    ensures DelIndex("del 1") == 0
  {
    assert ' ' !in "del" && ' ' !in "1";
    assert "del 1" == "del" + ([' '] + "1");
    TokenAfterWord("del", "1", 0, false);
    SoleTokenOfWord("1");
    assert Decimal(1) == "1";
    ToULongOfDecimal(1);
  }

  /** Case is ignored, and `?` stands for exactly one character. */
  lemma WildcardExamples()
    ensures WildCmp("#Foo", "#foo")
    ensures WildCmp("a?c", "abc") && !WildCmp("a?c", "ac") && !WildCmp("a?c", "abbc")
  {
    assert Lower("#Foo") == "#foo" && Lower("#foo") == "#foo";
    assert Lower("a?c") == "a?c" && Lower("abc") == "abc";
    assert Lower("ac") == "ac" && Lower("abbc") == "abbc";
  }
}
