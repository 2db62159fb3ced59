# Debug logger of ThreadBeanPHP, modelled in Dafny

ThreadBeanPHP's `Debug` logger turns each SQL statement the library runs into
one readable line. The line shows the statement with its bound values filled
in. The logger keeps every line in its log buffer and, unless it is in array
mode, echoes it for the command line (ANSI colours) or for a web page (HTML).

The model follows the steps of `log()`:

- `Slots` (normalizeSlots) turns the k-th positional `?` into a `:slot` k
  marker in the surface's colour markup. `NormalizeSlots` is the source's
  `while` loop. It is proved equal to `SlotsFrom`, a character-by-character
  reference definition. `SlotsFrom` takes the marker of each slot number as
  a function, so its lemmas hold for either surface's markup.
- `Bindings` (normalizeBindings) gives numeric keys the names `:slot0`,
  `:slot1`, ... in the order they are met, and keeps every other key. A PHP
  array with string keys is a sequence of (key, value) pairs in insertion
  order. `Put` models `$a[$k] = $v`: an existing key keeps its place and
  takes the new value, and a new key goes at the end.
- `Render` (fillInValue) resolves a value's PDO type, truncates the text to
  its first `strLen` bytes plus `"... "`, and quotes it when the type is
  PARAM_STR. A Dafny `char` stands for one byte of the PHP string.
- `Assemble` (writeQuery) sorts the bindings so the longest key comes first.
  It then replaces every occurrence of each `:` key with the key's rendered
  value (`str_replace`). The longest-first order stops `:slot1` from eating
  the front of `:slot10`.
- `Logger` holds the class `Debug`, with the logger's fields, its setters,
  `Output` and `Log`.
- `PositionalFill` follows the three steps together for a query with
  positional `?`s and a list of values. It proves that the k-th `?` ends up
  holding the k-th rendered value. This holds when the query holds no `:`,
  there are enough values, and no rendered value holds a `:`.
- `Strings` models the PHP string functions the code relies on: `strpos`,
  `str_replace`, and decimal rendering of the slot counter.

The model follows the code in four places where a plain-words description of
the logger might suggest otherwise:

- PHP null becomes the text `NULL` before truncation and quoting. So `NULL` is
  truncated when `strLen < 4`. It is also quoted under the string-only flag or
  an explicit PARAM_STR type.
- `log($sql)` with one argument is not a verbatim pass-through. The bindings
  default to an empty array, so the `?`s of the query are still turned into
  slot markers.
- A logger in array mode still appends every line to its buffer. Only the
  echo is left out.
- A string key that is already a slot name, such as `:slot0`, can be
  overwritten by a numeric key renamed to the same name. Which value survives
  depends on the order of the two entries.

## Model

| member | source | states |
|---|---|---|
| Strings.Find | ThreadBeanPHP/Logger/RDefault/Debug.php:172-173 | strpos of one character: None exactly when the character is absent; otherwise the index of its first occurrence |
| Strings.Count | ThreadBeanPHP/Logger/RDefault/Debug.php:172 | the number of `?` is zero exactly when there is none; this count is the loop's termination measure |
| Strings.CountConcat | ThreadBeanPHP/Logger/RDefault/Debug.php:175-178 | counting occurrences distributes over concatenation |
| Strings.DecimalString | ThreadBeanPHP/Logger/RDefault/Debug.php:174 | the counter in `':slot'.$i` is written as a non-empty string of digits with no leading zero |
| Strings.ParseDecimalString | ThreadBeanPHP/Logger/RDefault/Debug.php:174 | reading the decimal text back gives the counter: the rendering is lossless |
| Strings.DecimalStringInjective | ThreadBeanPHP/Logger/RDefault/Debug.php:201 | different counters give different slot numbers |
| Strings.ReplaceAllAbsent | ThreadBeanPHP/Logger/RDefault/Debug.php:76 | str_replace leaves a subject that does not contain the search string unchanged |
| Strings.ReplaceAll | ThreadBeanPHP/Logger/RDefault/Debug.php:76 | str_replace: every non-overlapping occurrence, scanning left to right, is replaced; an empty search string leaves the subject unchanged; a replacement as long as the search string keeps the length |
| Strings.ReplaceAllPlainPrefix | ThreadBeanPHP/Logger/RDefault/Debug.php:76 | a prefix that cannot start a match passes through str_replace untouched |
| Render.ResolveType | ThreadBeanPHP/Logger/RDefault/Debug.php:92-109 | the type is never other than INT or STR; the string-only flag forces STR; otherwise an explicit INT or STR tag is kept; otherwise INT exactly when canBeTreatedAsInt holds or the text is `NULL` |
| Render.ValueText | ThreadBeanPHP/Logger/RDefault/Debug.php:99 | the text rendered for a value: PHP null becomes the word `NULL`, any other scalar its own text |
| Render.Truncate | ThreadBeanPHP/Logger/RDefault/Debug.php:111-113 | a text of at most n bytes is kept; a longer one becomes its first n bytes followed by `"... "` |
| Render.FillInValue | ThreadBeanPHP/Logger/RDefault/Debug.php:90-120 | the result is at most strLen + 6 long; for STR it is the truncated text in single quotes, for INT the truncated text alone |
| Render.FillInValueLossless | ThreadBeanPHP/Logger/RDefault/Debug.php:111-119 | a value within the length limit is recovered from its rendering by removing the quotes its type adds |
| Render.FillInValueTruncated | ThreadBeanPHP/Logger/RDefault/Debug.php:111-119 | a longer value keeps exactly its first strLen bytes followed by the marker |
| Render.NullRendering | ThreadBeanPHP/Logger/RDefault/Debug.php:99-117 | null renders as `NULL`, quoted exactly when the string-only flag or an explicit STR tag is set, and truncated like any text |
| Render.RenderingExamples | ThreadBeanPHP/Logger/RDefault/Debug.php:90-120 | concrete renderings: an integer-like text is bare, other text is quoted, the flag quotes `42`, `abcdefgh` with limit 5 becomes `'abcde... '`, null with limit 2 becomes `NU... ` |
| Slots.SlotName | ThreadBeanPHP/Logger/RDefault/Debug.php:174 | every slot name is `:slot` followed by one or more decimal digits and nothing else |
| Slots.Wrap | ThreadBeanPHP/Logger/RDefault/Debug.php:177-181 | the markup around a slot name: ANSI green on the command-line surface, a green bold HTML element otherwise |
| Slots.Marker | ThreadBeanPHP/Logger/RDefault/Debug.php:174-181 | what the `?` numbered k turns into: the slot name `:slot` k in its surface's markup |
| Slots.MarkerHasNoQuestionMark | ThreadBeanPHP/Logger/RDefault/Debug.php:177-181 | the coloured marker of a slot holds no `?`, on either surface |
| Slots.Markers | ThreadBeanPHP/Logger/RDefault/Debug.php:177-181 | the markers of one surface as a function of the slot number |
| Slots.MarkersQuestionFree | ThreadBeanPHP/Logger/RDefault/Debug.php:177-181 | no marker of either surface holds a `?`, whatever the slot number |
| Slots.SlotsFrom | ThreadBeanPHP/Logger/RDefault/Debug.php:168-185 | reference definition of the rewriting: read left to right, the `?` numbered k becomes the k-th marker and every other character is kept in place |
| Slots.SlotsFromIdentity | ThreadBeanPHP/Logger/RDefault/Debug.php:172 | a query without `?` is left unchanged |
| Slots.SlotsFromNoQuestionMark | ThreadBeanPHP/Logger/RDefault/Debug.php:172-183 | with markers free of `?`, no `?` is left in the rewritten query |
| Slots.SlotsFromConcat | ThreadBeanPHP/Logger/RDefault/Debug.php:171-182 | slot numbers run on left to right: the right part of a query continues after the left part's count of `?` |
| Slots.SlotsFromQuestion | ThreadBeanPHP/Logger/RDefault/Debug.php:174-181 | a leading `?` becomes the marker of the current slot number and the rest continues from the next number |
| Slots.KthQuestionMark | ThreadBeanPHP/Logger/RDefault/Debug.php:168-185 | the `?` with j others before it becomes the marker of slot j; the text on either side is rewritten independently |
| Slots.SlotsFromFirst | ThreadBeanPHP/Logger/RDefault/Debug.php:173-181 | cutting at the first `?` keeps the text before it, puts in the marker, and rewrites the rest from the next number |
| Slots.FirstInRest | ThreadBeanPHP/Logger/RDefault/Debug.php:173 | when the rewritten part has no `?`, strpos finds the first `?` inside the part still to be rewritten |
| Slots.ReplaceOneCount | ThreadBeanPHP/Logger/RDefault/Debug.php:175-181 | putting a marker in place of one `?` removes exactly one `?` |
| Slots.NormalizeStep | ThreadBeanPHP/Logger/RDefault/Debug.php:173-182 | one loop pass moves the rewritten/remaining split past the first `?`, agrees with the reference definition and lowers the count of `?` by one |
| Slots.NormalizeSlots | ThreadBeanPHP/Logger/RDefault/Debug.php:168-185 | the loop returns exactly the reference rewriting, which holds no `?`; a query without `?` comes back unchanged |
| Bindings.Lookup | ThreadBeanPHP/Logger/RDefault/Debug.php:202-205 | `$a[k]`: the value stored under k in the array, or none |
| Bindings.KeysCons | ThreadBeanPHP/Logger/RDefault/Debug.php:202-205 | the keys of an array with one more entry in front are that entry's key plus the others |
| Bindings.UniqueKeysCons | ThreadBeanPHP/Logger/RDefault/Debug.php:202-205 | an array with an entry in front has unique keys exactly when the rest does and does not hold that key |
| Bindings.Put | ThreadBeanPHP/Logger/RDefault/Debug.php:202-205 | after `$a[k] = v`, k maps to v and every other key is unchanged; a new key is appended, an existing one keeps its place |
| Bindings.PutKeys | ThreadBeanPHP/Logger/RDefault/Debug.php:202-205 | assigning adds exactly k to the key set and never makes a key occur twice |
| Bindings.NumericCount | ThreadBeanPHP/Logger/RDefault/Debug.php:197-203 | the counter `$i` after a prefix of the input: the number of numeric keys in it |
| Bindings.RenamedKey | ThreadBeanPHP/Logger/RDefault/Debug.php:200-205 | the key an entry is stored under: a numeric key becomes `:slot` followed by the counter, any other key is kept |
| Bindings.Renamed | ThreadBeanPHP/Logger/RDefault/Debug.php:199-207 | renaming keeps one entry per input entry |
| Bindings.Normalized | ThreadBeanPHP/Logger/RDefault/Debug.php:198-207 | reference definition of the loop: the array built by assigning each entry, under its renamed key, in input order |
| Bindings.NormalizeBindings | ThreadBeanPHP/Logger/RDefault/Debug.php:195-209 | the loop builds exactly the fold of `$newBindings[$newKey] = $value` over the input, with the counter advancing on numeric keys only; no key occurs twice |
| Bindings.NormalizedUniqueKeys | ThreadBeanPHP/Logger/RDefault/Debug.php:198-207 | the normalized array never holds a key twice |
| Bindings.NormalizedLookup | ThreadBeanPHP/Logger/RDefault/Debug.php:199-207 | the value under a key is that of the last entry renamed to it: a later assignment overwrites an earlier one |
| Bindings.RenamedAt | ThreadBeanPHP/Logger/RDefault/Debug.php:199-207 | entry j keeps its value; a numeric key becomes `:slot` followed by the number of numeric keys before it; a named key is kept |
| Bindings.SlotNamesDistinct | ThreadBeanPHP/Logger/RDefault/Debug.php:201 | different counters give different slot names |
| Bindings.NumericCountGrows | ThreadBeanPHP/Logger/RDefault/Debug.php:200-203 | the counter never goes down and goes up past every numeric key |
| Bindings.NumericKeysDistinct | ThreadBeanPHP/Logger/RDefault/Debug.php:200-203 | two different numeric entries are given two different slot names |
| Bindings.NamedKeyKept | ThreadBeanPHP/Logger/RDefault/Debug.php:204-205 | in an input with unique keys, a named key that is no slot name `:slot` k (such as `:slot_id` or `name`) keeps its value |
| Bindings.LastIsNamed | ThreadBeanPHP/Logger/RDefault/Debug.php:204-205 | for such a named key, the last entry renamed to it carries the value of the key's own entry |
| Bindings.NumericKeyOverwritesNamedSlot | ThreadBeanPHP/Logger/RDefault/Debug.php:200-205 | a numeric key renamed to `:slot0` overwrites an earlier named `:slot0` in its place; in the other order the named entry wins |
| Bindings.NumericCountPositional | ThreadBeanPHP/Logger/RDefault/Debug.php:200-203 | in a positional list every key is numeric, so the counter ends at the list's length |
| Bindings.LookupAbsent | ThreadBeanPHP/Logger/RDefault/Debug.php:202 | a key that no entry holds is not found |
| Bindings.PositionalBindingsAlign | ThreadBeanPHP/Logger/RDefault/Debug.php:195-209 | positional values end up under `:slot0`, `:slot1`, ... in order, which are the names normalizeSlots gives the `?`s |
| Assemble.ConsLongestKeyFirst | ThreadBeanPHP/Logger/RDefault/Debug.php:69-71 | an entry whose key is at least as long as the first key can be put in front of a list sorted longest key first |
| Assemble.InsertByKeyLength | ThreadBeanPHP/Logger/RDefault/Debug.php:69-71 | inserting into a list sorted longest key first keeps it sorted and adds exactly the new entry; the new entry comes first exactly when the list is empty or its first key is no longer than the new one |
| Assemble.LongerCount | ThreadBeanPHP/Logger/RDefault/Debug.php:69-71 | the place of a new entry: every key before it is strictly longer than the entry's key, and the key at it, if any, is no longer |
| Assemble.InsertPlacement | ThreadBeanPHP/Logger/RDefault/Debug.php:69-71 | the new entry goes right after the leading keys that are strictly longer than its own, and the other entries keep their order around it |
| Assemble.AfterPlaceNoLonger | ThreadBeanPHP/Logger/RDefault/Debug.php:69-71 | in a sorted list, no key from that place on is longer than the new entry's key |
| Assemble.SortByKeyLength | ThreadBeanPHP/Logger/RDefault/Debug.php:69-71 | uksort by descending key length yields the same entries, as a multiset, in non-increasing key length |
| Assemble.OfLengthConcat | ThreadBeanPHP/Logger/RDefault/Debug.php:69-71 | the entries of one key length in two lists put together are those of the first list followed by those of the second |
| Assemble.OfLengthInsertByKeyLength | ThreadBeanPHP/Logger/RDefault/Debug.php:69-71 | among the entries of any one key length, an inserted entry comes before those already in the list |
| Assemble.SortByKeyLengthStable | ThreadBeanPHP/Logger/RDefault/Debug.php:69-71 | the sort is stable: for every key length, the entries with a key of that length appear in the sorted list in their input order |
| Assemble.Step | ThreadBeanPHP/Logger/RDefault/Debug.php:75-77 | one pass of the foreach: a key starting with `:` is replaced everywhere by the rendered value, any other key leaves the string as it is |
| Assemble.Substitute | ThreadBeanPHP/Logger/RDefault/Debug.php:73-79 | the string after the passes of the foreach over the entries in the given order |
| Assemble.Assembled | ThreadBeanPHP/Logger/RDefault/Debug.php:66-79 | what writeQuery returns: the substitution over the bindings sorted longest key first |
| Assemble.WriteQuery | ThreadBeanPHP/Logger/RDefault/Debug.php:66-80 | the loop returns the template with the sorted `:` keys replaced one after another; empty bindings return the template unchanged |
| Assemble.SlotEntries | ThreadBeanPHP/Logger/RDefault/Debug.php:75 | only entries whose key starts with `:` are kept |
| Assemble.SubstituteSkipsOtherKeys | ThreadBeanPHP/Logger/RDefault/Debug.php:74-78 | keys not starting with `:` never change the string: substituting all entries is substituting the `:` keyed ones |
| Assemble.NoSlotKeysNoChange | ThreadBeanPHP/Logger/RDefault/Debug.php:66-80 | bindings none of whose keys starts with `:` return the template unchanged |
| Assemble.NoSlotEntries | ThreadBeanPHP/Logger/RDefault/Debug.php:75 | a list with no `:` key has no entries to substitute |
| Assemble.SubstituteAbsentKeys | ThreadBeanPHP/Logger/RDefault/Debug.php:74-78 | a query in which no bound key occurs comes back unchanged |
| Assemble.StepColonFree | ThreadBeanPHP/Logger/RDefault/Debug.php:75-77 | a pass leaves a query without `:` unchanged |
| Assemble.SubstituteColonFree | ThreadBeanPHP/Logger/RDefault/Debug.php:74-78 | every sequence of passes leaves a query without `:` unchanged |
| Assemble.ColonFreeQueryUnchanged | ThreadBeanPHP/Logger/RDefault/Debug.php:66-80 | a query without any `:` comes back from writeQuery unchanged, whatever the bindings |
| Assemble.ShortKeyEatsLongKey | ThreadBeanPHP/Logger/RDefault/Debug.php:68-76 | a key that is a proper prefix of a longer key rewrites the front of it |
| Assemble.CollidingValues | ThreadBeanPHP/Logger/RDefault/Debug.php:115-117 | under settings where no text except `NULL` is integer-like, `a` and `b` render as `'a'` and `'b'` |
| Assemble.SlotOneDoesNotEatSlotTen | ThreadBeanPHP/Logger/RDefault/Debug.php:66-80 | with `:slot1` and `:slot10` both bound, the sorted substitution fills `:slot10` with its own value |
| Assemble.GivenOrderEatsSlotTen | ThreadBeanPHP/Logger/RDefault/Debug.php:68-78 | without the sort, substituting `:slot1` first leaves `'a'0`: the collision the sort prevents |
| Assemble.UnboundLongKeyEaten | ThreadBeanPHP/Logger/RDefault/Debug.php:68-78 | the sort does not protect a slot that has no binding: a bound key that is a proper prefix of it rewrites its front and leaves the rest |
| Assemble.UnboundSlotTenTakesSlotOne | ThreadBeanPHP/Logger/RDefault/Debug.php:66-80 | with `:slot1` bound and `:slot10` unbound (eleven `?`, two positional values), `:slot10` comes out as `'a'0` |
| Assemble.SortEqualLength | ThreadBeanPHP/Logger/RDefault/Debug.php:69-71 | two entries with keys of equal length stay in the order given, as the stable uksort of PHP 8 keeps them |
| Assemble.ValuesOfEqualLengthKeys | ThreadBeanPHP/Logger/RDefault/Debug.php:115-117 | under those settings `:b` and `x` render as `':b'` and `'x'` |
| Assemble.SubstituteAThenB | ThreadBeanPHP/Logger/RDefault/Debug.php:73-79 | substituting `:a` then `:b` into `:a` gives `''x''`, because the value of `:a` holds `:b` |
| Assemble.SubstituteBThenA | ThreadBeanPHP/Logger/RDefault/Debug.php:73-79 | substituting `:b` then `:a` into `:a` gives `':b'` |
| Assemble.EqualLengthKeysKeepInputOrder | ThreadBeanPHP/Logger/RDefault/Debug.php:66-80 | the input order of keys of equal length decides the result: `:a` before `:b` gives `''x''`, `:b` before `:a` gives `':b'` |
| Logger.IsSchemaChange | ThreadBeanPHP/Logger/RDefault/Debug.php:138-144 | the highlight test: the line starts, case-sensitively, with CREATE, ALTER or DROP |
| Logger.Formatted | ThreadBeanPHP/Logger/RDefault/Debug.php:235-237 | the line built from a query and a bindings array: writeQuery of normalizeSlots and normalizeBindings |
| Logger.EntryOf | ThreadBeanPHP/Logger/RDefault/Debug.php:221-238 | the line one call to log() outputs: none without arguments, the raw query with a non-array second argument, otherwise the formatted line with the bindings defaulting to an empty array |
| Logger.OneArgumentIsNormalized | ThreadBeanPHP/Logger/RDefault/Debug.php:225-238 | a call with the query alone logs the query with its `?`s turned into slots; a query without `?` is logged as it is |
| Logger.VerbatimOnlyForNonArray | ThreadBeanPHP/Logger/RDefault/Debug.php:231-237 | only a second argument that is not an array logs the query verbatim; an empty array still rewrites its `?`s |
| Logger.Debug.constructor | ThreadBeanPHP/Logger/RDefault/Debug.php:28-38 | a new logger has strLen 40, both flags off, and an empty buffer |
| Logger.Debug.CliSurface | ThreadBeanPHP/Logger/RDefault/Debug.php:145 | the command-line surface is used exactly when PHP runs from the command line and the override is off; the same test picks the markers at line 177 |
| Logger.Debug.Echo | ThreadBeanPHP/Logger/RDefault/Debug.php:137-157 | what output echoes for a line: nothing in array mode, otherwise one line on the chosen surface, highlighted when it starts a schema change |
| Logger.Debug.SetOverrideCLIOutput | ThreadBeanPHP/Logger/RDefault/Debug.php:52-55 | sets the HTML override flag and nothing else |
| Logger.Debug.SetParamStringLength | ThreadBeanPHP/Logger/RDefault/Debug.php:250-254 | the length becomes max(0, len) and stays non-negative; nothing else changes |
| Logger.Debug.SetUseStringOnlyBinding | ThreadBeanPHP/Logger/RDefault/Debug.php:265-269 | sets the string-only flag and nothing else |
| Logger.Debug.Output | ThreadBeanPHP/Logger/RDefault/Debug.php:134-158 | exactly one line is appended to the buffer in every mode, earlier lines untouched; outside array mode one emission is recorded, on the surface PHP_SAPI and the override select, highlighted exactly when the line starts with CREATE, ALTER or DROP |
| Logger.Debug.Log | ThreadBeanPHP/Logger/RDefault/Debug.php:219-239 | with no arguments nothing changes; with a non-array second argument the raw query is output; otherwise exactly writeQuery(normalizeSlots(sql), normalizeBindings(bindings)) is output |
| Logger.MutedLoggerBuffers | ThreadBeanPHP/Logger/RDefault/Debug.php:136-137 | a logger in array mode buffers the line and echoes nothing |
| Logger.SchemaChangeHeuristic | ThreadBeanPHP/Logger/RDefault/Debug.php:139-144 | the schema-change test is case-sensitive and looks only at the start of the line |
| Strings.ReplaceAllNoMatchHere | ThreadBeanPHP/Logger/RDefault/Debug.php:76 | where the search string does not start, str_replace copies one character and scans on |
| PositionalFill.SlotNameShape | ThreadBeanPHP/Logger/RDefault/Debug.php:174 | a slot name starts with `:s` and holds no other `:` |
| PositionalFill.HtmlOpenPasses | ThreadBeanPHP/Logger/RDefault/Debug.php:180 | the HTML opening markup, whose `:` is followed by `g`, is never taken for a slot name by str_replace |
| PositionalFill.OpenPasses | ThreadBeanPHP/Logger/RDefault/Debug.php:177-181 | on either surface the opening markup passes through the replacement of a slot name unchanged |
| PositionalFill.ClosePasses | ThreadBeanPHP/Logger/RDefault/Debug.php:177-181 | on either surface the closing markup passes through the replacement of a slot name unchanged |
| PositionalFill.WrapPasses | ThreadBeanPHP/Logger/RDefault/Debug.php:177-181 | a slot in its markup is rewritten exactly as the slot name inside it is |
| PositionalFill.OtherSlotNoMatch | ThreadBeanPHP/Logger/RDefault/Debug.php:68-76 | a different slot name, no longer than the one searched for and followed by markup, never matches it: this is what the longest-first sort ensures |
| PositionalFill.MatchedSlotReplaced | ThreadBeanPHP/Logger/RDefault/Debug.php:76 | the searched slot name is replaced by the rendered value |
| PositionalFill.OtherSlotPasses | ThreadBeanPHP/Logger/RDefault/Debug.php:76 | any other slot name no longer than the searched one passes through unchanged |
| PositionalFill.FilledSlotPasses | ThreadBeanPHP/Logger/RDefault/Debug.php:76 | a slot already filled with a value free of `:` passes through unchanged |
| PositionalFill.MatchedMarkerReplaced | ThreadBeanPHP/Logger/RDefault/Debug.php:76 | the marker of the searched slot becomes the value in the same markup |
| PositionalFill.OtherMarkerPasses | ThreadBeanPHP/Logger/RDefault/Debug.php:76 | the marker of a different slot whose name is no longer passes through unchanged |
| PositionalFill.MarkerStep | ThreadBeanPHP/Logger/RDefault/Debug.php:74-77 | replacing a longest pending slot name fills that slot's marker and leaves every other marker as it was |
| PositionalFill.SlotsFromReplaced | ThreadBeanPHP/Logger/RDefault/Debug.php:76 | when str_replace turns each marker into its new form and no other character starts the search string, it rewrites the whole normalized query marker by marker |
| PositionalFill.FillStep | ThreadBeanPHP/Logger/RDefault/Debug.php:74-77 | one pass of the foreach fills exactly the slot it names and leaves the rest of the query as it was |
| PositionalFill.PendingNoLonger | ThreadBeanPHP/Logger/RDefault/Debug.php:69-71 | after the sort, no key still to be substituted is longer than the next one |
| PositionalFill.PendingInTail | ThreadBeanPHP/Logger/RDefault/Debug.php:74 | once an entry is done, the keys still pending are among the entries that follow it |
| PositionalFill.TailSlotEntries | ThreadBeanPHP/Logger/RDefault/Debug.php:74 | the entries after the first are still slot bindings |
| PositionalFill.FillAll | ThreadBeanPHP/Logger/RDefault/Debug.php:66-80 | substituting slot bindings longest name first fills every pending slot with its own value |
| PositionalFill.SlotsFromSameMarkers | ThreadBeanPHP/Logger/RDefault/Debug.php:168-185 | the rewritten query depends only on the marker of each slot number |
| PositionalFill.PermutedSlotEntries | ThreadBeanPHP/Logger/RDefault/Debug.php:69-71 | sorting the slot bindings yields only slot bindings |
| PositionalFill.PermutedSlotKeys | ThreadBeanPHP/Logger/RDefault/Debug.php:69-71 | sorting the slot bindings keeps every bound slot's name |
| PositionalFill.AllPendingIsNormalized | ThreadBeanPHP/Logger/RDefault/Debug.php:168-185 | before any substitution, the query is the one normalizeSlots returns |
| PositionalFill.PositionalCallFillsEverySlot | ThreadBeanPHP/Logger/RDefault/Debug.php:219-239 | log($sql, $values) with positional values: when the query has no `:`, there are at least as many values as `?`s and no rendered value holds a `:`, every `?` is replaced by its own value, rendered by fillInValue and set in the slot markup, and all other text is kept |
| PositionalFill.KthMarkHoldsKthValue | ThreadBeanPHP/Logger/RDefault/Debug.php:219-239 | under those conditions the k-th `?` of the query, counting from 0, holds the k-th value |
| PositionalFill.OneValueCall | ThreadBeanPHP/Logger/RDefault/Debug.php:219-239 | a query with one `?` and one value logs the text before it, the rendered value in the slot markup, and the text after it |

## Left out

- The `echo` calls of `output` (Debug.php:145-156) write to the terminal or the page. The model records only what each echo decides: the surface, whether the line is highlighted, and the line. The ANSI and HTML text around the line and `PHP_EOL` are not modelled.
- `PHP_SAPI` is a constant of the PHP runtime. It enters as the parameter `sapiIsCli`.
- `$noCLI` is a static in the source and is shared by every Debug logger. Here each logger holds its own copy, so one logger's setOverrideCLIOutput does not change the others.
- `AQueryWriter::canBeTreatedAsInt` is not part of this model. It is an uninterpreted `string -> bool` carried in `Settings`.
- PHP's value coercions are left out. These are `is_numeric` on string keys (a `Name` key is never numeric here), `strlen` on non-scalar values, arrays of a size other than two, and the loose `!=` comparison of PDO constants. Values are a fixed encoding: a scalar text or null, optionally with a PDO tag.
- `uksort` is modelled as the stable sort of PHP 8.0 and later: keys of equal length keep their input order (`Assemble.SortByKeyLengthStable`; `Assemble.EqualLengthKeysKeepInputOrder` shows that this order can change the result). Earlier PHP versions promised no order for such keys, and that behaviour is not modelled.
- Render.Truncate: a Dafny `char` stands for one byte of the PHP string, as `strlen` and `substr` count bytes. Encoding text into bytes is not modelled, so a multibyte character cut in the middle is not captured. The bound `strLen + 6` of `Render.FillInValue` is a bound in bytes.
- Default parameter values (`$len = 20`, `$yesNo = false`) and the `return $this` of the setters are not modelled.
- Of the parent logger `RDefault`, the model keeps only the `mode` flag and the `logs` buffer. Its other methods are not part of this model.
- The bindings array is passed by value in PHP, so the input is never mutated. Dafny sequences are values too, so this holds by construction and has no lemma.
- `ThreadBeanPHP/BeanHelper/SimpleFacadeBeanHelper.php` is not part of this model. It resolves classes by reflection.
- `RedBean/Setup.php` is not part of this model. It constructs database drivers.
- `ThreadBeanPHP/TypedModel.php` is not part of this model. It is a one-line delegation.
- `ThreadBeanPHP/Plugin.php` is not part of this model. It is an empty interface.
- PositionalFill.PositionalCallFillsEverySlot: the end-to-end result is proved only for queries without `:` and for values whose rendering holds no `:`. A `:` in the query or in a value can be taken for part of a slot name by a later replacement, and those cases are not covered.
