# zncfilter: the message filter module, modelled in Dafny

`myfilter.cpp` is a ZNC network module that keeps an ordered list of
filter rules. Each rule has a channel pattern, a nick pattern, a text
pattern and a hit counter. Every channel message and notice is tested
against the rules in order. The first rule whose three wildcard patterns
all match (case-insensitively) gets its counter increased, and the message
is halted. The commands `add`, `del` and `list` edit and show the list. The
list is saved under the host key `Filters` as one line per rule,
`chan nick hits text`, after every command and on unload. It is read back
on load.

The model has three modules:

- `ZncString` (`znc_string.dfy`) specifies the ZNC string helpers the
  module calls. These are `WildCmp` with `AsLower`, the space tokenizer
  `Token`, `ToULong` (C's `strtoul` in base 10), `CString(unsigned long)`,
  `Join` and `Split`. It also proves the facts about them that the module
  relies on.
- `FilterEntry` (`filter_entry.dfy`) models the `Entry` record, its
  `serialize`/`deserialize` pair and their round trip.
- `MyFilter` (`my_filter.dfy`) holds the first-match rule, the saved
  format of the whole list and the commands as pure specifications. Its
  class `FilterModule` models `CMyFilter`: the `entries` vector is a
  `seq<Entry>` field that the handlers reassign, and the host's `Filters`
  value is the field `filtersNV`. Each handler is a method. Its `ensures`
  ties the new list and the stored value to the specification functions.
  The message handler and `Save`, `list` and `OnLoad` keep the source's
  loops, each with its invariants.

`unsigned long` is 64 bits wide (`ULong`, 0 to 2^64-1). The two places
where the source relies on unsigned wrap-around are written out: the
`hits++` of a match and the `ToULong() - 1` of `del`.

Three behaviours of the code worth stating:

- Loading does not skip empty lines. ZNC's `Split` keeps an empty piece
  between two newlines, and `OnLoad` turns it into a rule with empty
  patterns. Only a trailing empty piece is dropped.
- The hit counter is not monotonic. It wraps to 0 after ULONG_MAX.
- Save/load reproduces a list only for rules of a certain shape
  (`WellFormed`). The channel and nick patterns must be non-empty single
  words, the text must not start with a space, and no field may contain a
  newline. `add` with the nick missing produces a rule outside that shape
  (see Findings).

## Model

| member | source | states |
|---|---|---|
| ZncString.Lower | myfilter.cpp:151-153 | case folding keeps the length and leaves no capital letter A-Z |
| ZncString.Glob | myfilter.cpp:151-153 | definition of the anchored glob comparison; its properties are stated by WildCmpStarMatchesAll, LiteralGlob, StarFreeLength, QuestionConsumesOne and StarThenSuffix |
| ZncString.WildCmp | myfilter.cpp:151-153 | definition of the case-insensitive comparison: the glob on both sides folded to lower case; WildCmpIgnoresCase states the case independence |
| ZncString.WildCmpStarMatchesAll | myfilter.cpp:151-153 | the pattern `*` matches every channel, nick or text, the empty one included |
| ZncString.LiteralGlob | myfilter.cpp:151-153 | a pattern without `*` or `?` matches exactly the subject equal to it, so matching is anchored at both ends |
| ZncString.StarFreeLength | myfilter.cpp:151-153 | a pattern without `*` matches only subjects of exactly its own length |
| ZncString.QuestionConsumesOne | myfilter.cpp:151-153 | a leading `?` matches exactly one character of the subject, whatever it is |
| ZncString.StarThenSuffix | myfilter.cpp:151-153 | `*` followed by a pattern matches any prefix followed by a subject that pattern matches |
| ZncString.WildCmpIgnoresCase | myfilter.cpp:151-153 | the comparison gives the same answer for a subject and its lower-cased form |
| ZncString.Token | myfilter.cpp:86-88 | a single token contains no space; the rest of a line from a token never starts with a space |
| ZncString.TokenAfterWord | myfilter.cpp:43-45 | dropping a leading word and its separator shifts every token number down by one, in both single and rest mode |
| ZncString.TokenOfOneLine | myfilter.cpp:86-88 | a token of a line without newlines has no newline |
| ZncString.ToULong | myfilter.cpp:97 | input that has no digit right after its leading white space and optional sign reads as 0, as does input without any digit |
| ZncString.Decimal | myfilter.cpp:39 | a printed counter is a non-empty run of digits without a leading zero |
| ZncString.ToULongOfDecimal | myfilter.cpp:39-44 | reading back a printed `unsigned long` gives the same number |
| ZncString.Join | myfilter.cpp:40 | definition of `Join`: the parts with the separator between neighbours; SplitOfJoin states its inverse |
| ZncString.SplitLines | myfilter.cpp:166 | the pieces `Split("\n")` returns contain no newline, and there are none exactly for the empty string |
| ZncString.SplitOfJoin | myfilter.cpp:78 | splitting the newline-join of non-empty lines without newlines gives back the same lines in order |
| FilterEntry.NewEntry | myfilter.cpp:29-31 | a new rule has the three given patterns and 0 hits |
| FilterEntry.Hit | myfilter.cpp:155 | a hit leaves the patterns alone and adds one to the counter, wrapping to 0 after ULONG_MAX |
| FilterEntry.Serialize | myfilter.cpp:38-41 | definition of `serialize`; SerializeLayout states its layout and DeserializeSerialize its inverse |
| FilterEntry.Deserialize | myfilter.cpp:43-45 | definition of `deserialize` from tokens 0, 1, 3-and-rest and 2; DeserializeSerialize states that it undoes Serialize |
| FilterEntry.SerializeLayout | myfilter.cpp:38-41 | the saved line is `chan`, `nick`, decimal hits and `text`, separated by single spaces in that order |
| FilterEntry.SerializeIsOneLine | myfilter.cpp:38-41 | the saved line of a well-formed rule is non-empty and has no newline |
| FilterEntry.DeserializeSerialize | myfilter.cpp:38-45 | deserializing a serialized well-formed rule gives back the same rule, including its hits and any spaces inside the text |
| MyFilter.Matches | myfilter.cpp:151-153 | definition: a rule matches when its channel, nick and text patterns all match; FirstMatch and MessageTestEffect state what the handler does with it |
| MyFilter.FirstMatch | myfilter.cpp:149-158 | the result is the lowest position whose rule matches on all three patterns, and it is absent exactly when no rule matches |
| MyFilter.Verdict | myfilter.cpp:149-159 | the verdict is HALT exactly when some rule matches |
| MyFilter.AfterMessage | myfilter.cpp:149-158 | testing a message keeps the number of rules; MessageTestEffect states which rule changes and how |
| MyFilter.MessageTestEffect | myfilter.cpp:143-160 | a message is halted if and only if some rule matches it; only the earliest matching rule changes, by one hit, and the list keeps its length |
| MyFilter.EarlierRuleShadowsLater | myfilter.cpp:149-157 | when two rules match, the later one is not counted and the message is halted |
| MyFilter.Blob | myfilter.cpp:72-79 | definition of the stored value: the serialized rules joined by newlines; SplitBlob and SaveLoadRoundTrip state what reading it back gives |
| MyFilter.Loaded | myfilter.cpp:162-170 | with nothing stored no rule is loaded; otherwise one rule per piece of the stored value |
| MyFilter.OneRuleLoaded | myfilter.cpp:162-170 | a list of one rule of any shape, even a malformed one, is stored as its single line and loads as that line decoded |
| MyFilter.SplitBlob | myfilter.cpp:72-79 | the saved value of a well-formed list splits back into one serialized line per rule, in list order |
| MyFilter.SaveLoadRoundTrip | myfilter.cpp:162-170 | loading the value saved for a well-formed list restores that list, in order, counters included |
| MyFilter.AddedEntry | myfilter.cpp:86-89 | the rule `add` creates has 0 hits, space-free channel and nick patterns and a text that does not start with a space |
| MyFilter.AddedEntryOfWords | myfilter.cpp:86-89 | `add <chan> <nick> <text>` with one-word channel and nick creates exactly the rule (chan, nick, text, 0), with the rest of the line as text |
| MyFilter.AddedEntryWellFormed | myfilter.cpp:86-89 | a rule added with a channel and a nick present survives a save and a reload |
| MyFilter.AddWithoutNickIsNotRestored | myfilter.cpp:84-89 | as written, `add #chan` creates the nick pattern "", and saving and reloading that list gives the different rule (#chan, 0, "", 0) |
| MyFilter.CheckedAddedEntry | myfilter.cpp:83-89 | the corrected `add` refuses a command exactly when the channel or the nick is missing; otherwise it creates a rule with 0 hits |
| MyFilter.CheckedAddedEntryWellFormed | myfilter.cpp:83-89 | every rule created by the corrected `add` is well-formed |
| MyFilter.CheckedAddKeepsRoundTrip | myfilter.cpp:83-92 | with the corrected `add`, a well-formed list stays well-formed and reloads intact after each addition |
| MyFilter.DelNumber | myfilter.cpp:97 | definition: token 1 of the command read as an `unsigned long`; DelOfNonNumber states its value for non-numbers |
| MyFilter.Pred | myfilter.cpp:97 | definition of `n - 1` in `unsigned long` arithmetic; PredInRange states its values |
| MyFilter.DelIndex | myfilter.cpp:97 | definition of the position `del` removes; PredInRange and DelOfNonNumber state when it is in range |
| MyFilter.DelOfNonNumber | myfilter.cpp:97-102 | `del` with something other than a number reads 0, whose wrapped position ULONG_MAX is never in range, so the reply is "Bad index" |
| MyFilter.PredInRange | myfilter.cpp:97-98 | the wrapped `n - 1` is a valid position exactly when 1 <= n <= size, and it is then n - 1; 0 wraps to ULONG_MAX |
| MyFilter.Removed | myfilter.cpp:99 | erasing position i drops one rule, keeps the rules before i and shifts the later rules down by one |
| MyFilter.RowOf | myfilter.cpp:119-123 | definition of one `list` row: channel, nick, decimal hits and text of the rule |
| MyFilter.FilterModule.constructor | myfilter.cpp:50-69 | the module starts with no rules and with whatever the host has stored |
| MyFilter.FilterModule.Save | myfilter.cpp:72-79 | the rules are unchanged and the stored value becomes the newline-join of their serialized lines, in list order |
| MyFilter.FilterModule.OnAddFilter | myfilter.cpp:81-93 | exactly one rule built from tokens 1, 2 and 3-and-rest is appended at the end, earlier rules are unchanged, and the list is saved |
| MyFilter.FilterModule.OnDelFilter | myfilter.cpp:95-106 | the rule at the wrapped position is removed exactly when that position is in range, which is when 1 <= n <= size; otherwise the reply is BadIndex and the list is identical; the list is saved in both cases |
| MyFilter.FilterModule.OnListFilters | myfilter.cpp:108-129 | the list is unchanged; the report is "no filters" exactly for an empty list, otherwise one row per rule in order; the list is saved |
| MyFilter.FilterModule.OnModuleUnloading | myfilter.cpp:131-136 | returns CONTINUE with success, leaves the rules alone and saves them |
| MyFilter.FilterModule.OnChanTextMessage | myfilter.cpp:143-160 | the verdict is HALT exactly when some rule matches; the rules change as MessageTestEffect says; storage is untouched |
| MyFilter.FilterModule.OnChanNoticeMessage | myfilter.cpp:138-141 | a notice gets exactly the verdict and the rule update a text message gets |
| MyFilter.FilterModule.OnLoad | myfilter.cpp:162-172 | one decoded rule per stored line is appended, in line order; with nothing stored the rules stay as they were; returns true |
| MyFilter.SpamExample | myfilter.cpp:143-160 | the rule (#chan, \*, \*spam\*) halts "buy spam now" from bob on #chan and counts 1 hit; on #other the message passes and nothing changes |
| MyFilter.WildcardExamples | myfilter.cpp:151-153 | `#Foo` matches `#foo`; `a?c` matches `abc` but not `ac` or `abbc` |
| MyFilter.AddAddDelScenario | myfilter.cpp:81-106 | on a fresh module, the handlers for `add #a nick1 hello`, `add #a nick2 world` and `del 1` remove a filter and leave exactly the rule (#a, nick2, world, 0), which is what is stored and what a reload gives |

## Left out

- Module plumbing has no logic and is not modelled: the command registration in the constructor (`AddHelpCommand`, `AddCommand`), `TModInfo` and `NETWORKMODULEDEFS` (myfilter.cpp:65-68, 174-179). The three command names dispatch to the three command methods.
- User-facing output is reduced to data. `del` returns which of its two messages it prints. `list` returns the rows of its table, or "no filters". Message wording and table layout are not modelled.
- The host key/value store is the field `filtersNV`. Write failures are not modelled because the module never checks them.
- Channel, nick and text reach the message handlers as plain strings. The `CMessage` accessors are not part of this model.
- The helpers `WildCmp`/`AsLower`, `Token`, `ToULong`, `CString(unsigned long)`, `Join` and `Split` are ZNC library code that is not part of this model. `ZncString` specifies their documented behaviour and is not checked against ZNC's implementation. Case folding covers ASCII letters only, as `tolower` does in the C locale. Strings with embedded NUL characters are not considered.
- A `string` here stands for the bytes of a `CString`, one `char` per byte (0 to 255). Multi-byte UTF-8 text is not modelled as such: in the source `?` consumes one byte, so `caf?` does not match `café`, whereas a model string that holds `é` as one character would match it.
- The `QuoteSplit` result at myfilter.cpp:84 is computed and never used, so it has no effect in the model.
- `OnListFilters` and `OnLoad` take an argument string and ignore it, as the source does. `sMessage` of `OnLoad` and `pModule` and `sRetMsg` of `OnModuleUnloading` are never used by the source and are not modelled.
- MyFilter.FilterModule.OnDelFilter: the "1 <= n <= size" form of the contract is stated only for lists of at most ULONG_MAX rules, which a `std::vector` never exceeds. The form in terms of the wrapped position holds for every size.
- MyFilter.SaveLoadRoundTrip: stated only for well-formed rules. Other rules do not survive a reload, as the finding below shows.

## Findings

| source | as written | input that shows it | evidently intended | confidence | as-written member | corrected member |
|---|---|---|---|---|---|---|
| myfilter.cpp:84-89 | `add` takes tokens 1, 2 and 3-and-rest without checking that they exist. A missing nick becomes the empty pattern, which is saved as an empty field between two spaces. Reloading skips the empty field and reads the hit count as the nick. | `add #chan` creates (#chan, "", "", 0), which is saved as `#chan  0 ` and reloaded as (#chan, "0", "", 0) | refuse `add` when the channel or the nick is missing (the argument count `args_n` at line 84 is computed but never checked), so every added rule survives a reload | medium, not executed | MyFilter.AddWithoutNickIsNotRestored | MyFilter.CheckedAddKeepsRoundTrip |
