# JSON Diff comparison engine, in Dafny

This project models the comparison engine of JSON Diff (`jdd.js`) and proves properties of it.
The engine compares two parsed JSON documents in three cooperating parts.

- **Printer and decorator.** `formatAndDecorate`, `formatVal`, `startObject`/`finishObject`,
  `startArray`/`finishArray` and their helpers write each document as indented text into a
  `config` record. The record has five fields: `out`, `indent`, `currentPath`, `paths` and `line`.
  As the printer writes, it records in `config.paths` one `{path, line}` entry for the root, for
  every object key and for every array element.
- **Path tracker and resolver.** `generatePath` joins the stack of path segments.
  `generateDiff` strips one trailing "/" from each of two paths and looks both up in the two
  line maps. It throws when either one is missing.
- **Diff engine.** `diffVal`, `findDiffs`, `diffArray` and `diffBool` walk both values in
  lock-step, dispatching on the left value's kind.
  They push TYPE, EQUALITY and MISSING diffs onto `jdd.diffs`.

Around the engine, `compare` does the following:
- prints both documents and builds the two line-correspondence tables;
- resets both path stacks and runs `diffVal`;
- sorts the diffs by left line;
- counts the diffs by kind for the report.

How the model is laid out:

- **Pure code becomes functions.** `getType`, `unescapeString`, `generateDiff` and the sorting
  of keys are functions (modules `JsonValues`, `Text`, `Paths`).
- **The printer is modelled twice.**
  - Module `Render` states it as functions that map one `config` state to the next.
  - Class `Decorator.Config` runs it in place, with the five fields and the source's
    accumulator loops. Every method is proved to end in exactly the state `Render` describes.
- **The engine is modelled twice.**
  - Module `Requests` states it as functions. `Walk` gives the sequence of `generateDiff`
    calls, called requests here, that a comparison makes, in order.
  - `Paths.ResolveAll` resolves a sequence of requests one by one and stops at the first throw.
  - Class `Engine.Jdd` runs the comparison in place. It has the field `diffs` and pushes and
    pops the two configs' path stacks. Every method is proved to leave in `diffs` exactly what
    `ResolveAll` gives for its requests, and to throw exactly when `ResolveAll` does.
- **The properties are proved against those functions.**
  - `WalkFacts` covers kind mismatch, leaves, self-comparison, array lengths and key order.
  - `Render` and `RenderLines` cover stack balance and line counting.
  - `Coverage` and `Agreement` show that printer and engine agree on paths.
  - `Report` covers the line tables, the stable sort and the counts.

The main theorem is `Agreement.CompareResolves`. It assumes the left document has no `length`
key, and that on both sides no key's segment ends in "/" and no key is "hasOwnProperty" (a
"safe" key). Under those assumptions,
every path `diffVal` hands to `generateDiff` was recorded by the printer. The comparison then
never throws, and the i-th diff holds the records of the i-th request's two paths.

The model reproduces these quirks of the source as written:

- **First-occurrence replaces.** A key's segment replaces only its FIRST "/" with "#"
  (`Paths.KeySegmentReplacesOnlyFirst`). As a result, different keys can share a path
  (`Paths.KeySegmentsCollide`). `unescapeString` escapes only the first backslash and the first
  backspace (`Text.UnescapeStringDoublesOnlyFirstBackslash`,
  `Text.UnescapeStringEscapesOnlyFirstBackspace`).
- **The "right has more items" pre-scan.** It runs only when `data1.length < data2.length`
  holds, which is JavaScript's loose `<` on the `length` members. Its right path is the stack,
  then "//#", then the raw key (`WalkFacts.PreScanPath`). Whether the printer records such a path
  depends on the other keys of the right document. An empty key whose object holds "#x" or
  "/x" records "//#x", the path the pre-scan builds for key "x" at the top level. A key such as
  "q///#x" has the segment "q#//#x", so it records "/q#//#x": the pre-scan's path for key "x"
  in an object stored under "q/". Where no key supplies the path, the request finds no record
  and `generateDiff` throws. The model keeps these requests as written. The agreement theorem
  assumes no `length` key on the left, so the pre-scan never runs.
- **The extra pop.** `formatAndDecorateArray` pops the path stack once more than it pushes,
  and popping an empty stack leaves it empty (`Render.FormatAndDecorateArrayFrame`).
- **Scalar top-level documents.** `formatAndDecorate` writes anything that is not an array as
  an object. A top-level string is therefore written with one property per character index,
  because that is what `for…in` visits.

## Model

| member | source | states |
|---|---|---|
| JsonValues.GetType | jdd.js:28-34 | the kind name is "array" exactly for arrays, "object" exactly for objects, "null" exactly for null, and always one of the six JSON kind names |
| JsonValues.GetTypeSeparatesKinds | jdd.js:28-34 | two values get the same kind name if and only if they have the same kind, so arrays and null never pass as objects |
| JsonValues.NatToStringRoundTrip | jdd.js:207-209 | the decimal text written for an array index reads back as that index |
| JsonValues.IntToString | jdd.js:429 | a number is written as a sign and decimal digits |
| JsonValues.Keys | jdd.js:497-501 | the enumerated keys are the properties' keys, one per property, in `for…in` order |
| JsonValues.FindKeySpec | jdd.js:104-114 | `hasOwnProperty(key)` holds exactly when some property has the key; the index found is the first such property |
| JsonValues.Member | jdd.js:114 | `data[key]` is defined exactly when `hasOwnProperty(key)` holds, and is then the value of a property named `key` |
| JsonValues.IndexKeys | jdd.js:497-501 | a string enumerates the keys "0", …, "n-1", one per character, in order |
| JsonValues.IndexOfKey | jdd.js:281 | reading `key` from a string finds a character index whose decimal text is `key`, and finds none exactly when no index matches |
| JsonValues.LooseLessUndefined | jdd.js:77 | an object without a `length` member never satisfies `data1.length < data2.length` |
| JsonValues.LooseLessIrreflexive | jdd.js:77 | no `length` member is less than itself, so an object compared with itself never runs the pre-scan |
| Text.ReplaceFirst | jdd.js:451 | a string-pattern replace leaves a string without the character unchanged, introduces no other characters, and replaces exactly one occurrence when there is one |
| Text.ReplaceAll | jdd.js:452-457 | an all-occurrences replace removes every occurrence when the replacement lacks the character, and introduces no other characters |
| Text.UnescapeStringSpec | jdd.js:449-461 | the escaped text holds no raw newline, carriage return, tab or form feed; text without special characters comes out unchanged |
| Text.UnescapeStringDoublesOnlyFirstBackslash | jdd.js:451 | two backslashes come out as three: only the first is doubled |
| Text.UnescapeStringEscapesOnlyFirstBackspace | jdd.js:454 | two backspaces come out as an escaped backspace followed by a raw one |
| Text.Tabs | jdd.js:547-554 | the indentation is four spaces per level and empty for a level of zero or below |
| Text.GetTabs | jdd.js:547-554 | the accumulator loop builds exactly that indentation |
| Text.StrLessIrreflexive | jdd.js:503-505 | the key order is irreflexive |
| Text.StrLessAsymmetric | jdd.js:503-505 | the key order is asymmetric |
| Text.StrLessTotal | jdd.js:503-505 | any two different keys are ordered one way or the other |
| Text.Insert | jdd.js:503-505 | inserting a key into a sorted list keeps it sorted and adds exactly that key |
| Text.SortStrings | jdd.js:503-505 | the sorted keys are in order and are a permutation of the input |
| Paths.IndexPropHasNoSeparator | jdd.js:304 | an index property "[i]" passes through key escaping unchanged |
| Paths.KeySegmentsCollide | jdd.js:104 | the keys "a/b" and "a#b" get the same segment |
| Paths.KeySegmentReplacesOnlyFirst | jdd.js:104 | only the first "/" of a key becomes "#" |
| Paths.StripTrailingSpec | jdd.js:514-520 | "/" is kept, any other path ending in "/" loses exactly that one character, and a path without a trailing "/" is unchanged |
| Paths.FindEntrySpec | jdd.js:521-526 | a record is found exactly when the path was recorded, and it is a record of that path |
| Paths.FindEntryFirst | jdd.js:521-526 | the record found is the first record of that path |
| Paths.GenerateDiffSpec | jdd.js:513-542 | a diff is made exactly when both stripped paths are recorded, and it carries their records, the kind and the message; a missing left path is thrown first, otherwise the missing right path |
| Paths.ResolveAllAppend | jdd.js:528-534 | resolving two request lists in sequence is resolving the first, then the second only if the first did not throw |
| Paths.ResolveAllSucceeds | jdd.js:513-542 | when every request's paths are recorded, nothing is thrown and the i-th diff is the `generateDiff` result of the i-th request |
| Paths.ResolveAllFails | jdd.js:528-534 | a request whose paths are not both recorded makes the run throw |
| Render.SortedProperties | jdd.js:494-508 | the property list is sorted and is a permutation of the own keys |
| Render.OpenFrame | jdd.js:320-338 | opening a bracket keeps the stack, only appends records, and takes the indent from -1 to 1 and otherwise up one |
| Render.CloseFrame | jdd.js:343-357 | closing a nested bracket keeps the stack and the records and takes the indent down one |
| Render.FormatValFrame | jdd.js:404-435 | `formatVal` on a nested value leaves the path stack and the indent as it found them and only appends records |
| Render.ElementStepFrame | jdd.js:409-419 | one element callback pops what it pushed, keeps the indent and only appends records |
| Render.ElementsFrame | jdd.js:409-419 | the whole element loop keeps the stack and the indent and only appends records |
| Render.FormatAndDecorateFrame | jdd.js:258-287 | an object keeps the stack and an array pops one extra segment; the indent comes back, except that a fresh config's -1 ends at 0 |
| Render.FormatAndDecorateArrayFrame | jdd.js:293-315 | a top-level or nested array pops one segment it never pushed |
| Render.PropertiesFrame | jdd.js:274-283 | the key loop keeps the stack and the indent and only appends records |
| Render.PropertyStepFrame | jdd.js:274-283 | one key callback pops the segment it pushed |
| Render.FormatMemberFrame | jdd.js:281 | writing a member keeps the stack and the indent |
| Render.PrintFrame | jdd.js:1082-1087 | a printed document ends at indent 0 with an empty path stack |
| Render.PrintRecordsRootFirst | jdd.js:324-333 | the first record of every printed document is the root "/" at line 1 |
| RenderLines.CreateConfigConsistent | jdd.js:571-579 | a fresh config is consistent: line 1 counts the empty text's zero line breaks, and there are no records |
| RenderLines.NewLineThenConsistent | jdd.js:486-489 | `newLine` adds exactly one to the line count and one line break to the text |
| RenderLines.RemoveTrailingCommaConsistent | jdd.js:559-566 | removing the trailing comma removes no line break |
| RenderLines.RecordConsistent | jdd.js:277-280 | a record made just after a line break is on a later line than every earlier record |
| RenderLines.OpenConsistent | jdd.js:362-380 | opening an object or array keeps the line count and the record order |
| RenderLines.TabsNoNewline | jdd.js:547-554 | indentation holds no line break |
| RenderLines.CloseConsistent | jdd.js:385-399 | closing an object or array counts its line breaks |
| RenderLines.StringLeafConsistent | jdd.js:427 | a string leaf writes no raw line break, because `unescapeString` escapes them all |
| RenderLines.FormatValConsistent | jdd.js:404-435 | after `formatVal`, `config.line` is 1 plus the line breaks in `config.out`, and records have strictly increasing lines, none past the current one |
| RenderLines.NestedArrayCloseConsistent | jdd.js:420-423 | the closing bracket of a nested array counts its line break |
| RenderLines.LeafConsistent | jdd.js:424-434 | a scalar is written on the current line |
| RenderLines.ElementStepConsistent | jdd.js:409-419 | one element callback keeps line counting and record order |
| RenderLines.ElementsConsistent | jdd.js:409-419 | the element loop keeps line counting and record order |
| RenderLines.FormatAndDecorateConsistent | jdd.js:258-287 | `formatAndDecorate` keeps line counting and record order |
| RenderLines.FormatAndDecorateArrayConsistent | jdd.js:293-315 | `formatAndDecorateArray` keeps line counting and record order |
| RenderLines.PropertiesConsistent | jdd.js:274-283 | the key loop keeps line counting and record order |
| RenderLines.PropertyStepConsistent | jdd.js:274-283 | one key callback keeps line counting and record order, the escaped key writing no raw line break |
| RenderLines.FormatMemberConsistent | jdd.js:281 | writing a member keeps line counting and record order |
| RenderLines.PrintConsistent | jdd.js:1082-1087 | a printed document's line count is 1 plus its line breaks, and its records have strictly increasing lines |
| RenderLines.RecordsStrictlyIncreasing | jdd.js:277-280 | in such a line map, any earlier record is on a strictly earlier line |
| Decorator.Config.constructor | jdd.js:571-579 | a fresh config has empty text, indent -1, an empty stack, no records and line 1 |
| Decorator.Config.NewLine | jdd.js:486-489 | returns a line break and adds one to the line, changing nothing else |
| Decorator.Config.RemoveTrailingComma | jdd.js:559-566 | the config ends in the state `Render.RemoveTrailingComma` gives |
| Decorator.Config.GeneratePath | jdd.js:466-481 | returns the path `Paths.GeneratePath` gives for the current stack |
| Decorator.Config.JoinStack | jdd.js:467-470 | the loop returns the stack's segments joined in order |
| Decorator.Config.RecordPath | jdd.js:277-280 | appends one record of the generated path at the current line, changing nothing else |
| Decorator.Config.Open | jdd.js:362-380 | the config ends in the state `Render.Open` gives |
| Decorator.Config.StartObject | jdd.js:362-380 | the config ends in the state `Render.StartObject` gives |
| Decorator.Config.StartArray | jdd.js:320-338 | the config ends in the state `Render.StartArray` gives |
| Decorator.Config.Close | jdd.js:385-399 | the config ends in the state `Render.Close` gives |
| Decorator.Config.FinishObject | jdd.js:385-399 | the config ends in the state `Render.FinishObject` gives |
| Decorator.Config.FinishArray | jdd.js:343-357 | the config ends in the state `Render.FinishArray` gives |
| Decorator.Config.PopSegment | jdd.js:282 | pops the path stack, an empty stack staying empty |
| Decorator.Config.WriteString | jdd.js:427 | writes the quoted, escaped string and a comma |
| Decorator.Config.WriteElement | jdd.js:409-419 | the config ends in the state `Render.ElementStep` gives |
| Decorator.Config.FormatVal | jdd.js:404-435 | the config ends in the state `Render.FormatVal` gives, so stack, indent and line count behave as proved there |
| Decorator.Config.FormatNestedArray | jdd.js:405-423 | the config ends in the state of the nested-array branch of `Render.FormatVal` |
| Decorator.Config.FormatAndDecorate | jdd.js:258-287 | the config ends in the state `Render.FormatAndDecorate` gives |
| Decorator.Config.WriteProperty | jdd.js:274-283 | the config ends in the state `Render.PropertyStep` gives |
| Decorator.Config.FormatMember | jdd.js:281 | the config ends in the state `Render.FormatMember` gives |
| Decorator.Config.FormatAndDecorateArray | jdd.js:293-315 | the config ends in the state `Render.FormatAndDecorateArray` gives |
| Decorator.GetSortedProperties | jdd.js:494-508 | returns the own keys sorted, which by `Render.SortedProperties` is a sorted permutation of them |
| Decorator.ObjectKeys | jdd.js:497-501 | the collecting loop returns an object's keys in enumeration order |
| Decorator.IndexKeysOf | jdd.js:497-501 | the collecting loop returns a string's character indices in order |
| Coverage.FormatValCovers | jdd.js:404-435 | after `formatVal`, the path of every node below the value is recorded |
| Coverage.ElementStepCovers | jdd.js:409-419 | an element callback records the element's own path and every path below it |
| Coverage.ElementsCovers | jdd.js:409-419 | after the element loop, element j and everything below it are recorded |
| Coverage.ElementsBelow | jdd.js:409-419 | after the element loop, every element and everything below it are recorded |
| Coverage.FormatAndDecorateCovers | jdd.js:258-287 | after `formatAndDecorate`, every member of each own key and everything below it are recorded |
| Coverage.FormatAndDecorateArrayCovers | jdd.js:293-315 | after `formatAndDecorateArray`, every element and everything below it are recorded |
| Coverage.PropertiesCovers | jdd.js:274-283 | after the key loop, the member of key j and everything below it are recorded |
| Coverage.PropertyStepCovers | jdd.js:274-283 | a key callback records the member's path and every path below it |
| Coverage.ElementPath | jdd.js:303-308 | the path the printer records for element i with `generatePath(config, '[i]')` is the node path of the stack after the engine's push of "/[i]" (jdd.js:218-219) |
| Coverage.PrintCovers | jdd.js:1082-1087 | printing a document records the path of every one of its nodes |
| WalkFacts.KindMismatch | jdd.js:150-199 | values of different kinds give exactly one TYPE request at the current paths, named after the left kind, and nothing is descended into |
| WalkFacts.LeafCompare | jdd.js:160-186 | two leaves of one kind give no request when equal and exactly one EQUALITY request when they differ; for booleans the message follows the left value |
| WalkFacts.SelfCompare | jdd.js:148-231 | comparing a value with itself makes no `generateDiff` call, whatever the stacks |
| WalkFacts.ArrayElementsSelf | jdd.js:212-230 | comparing an array's elements with themselves makes no call |
| WalkFacts.LeftKeysSelf | jdd.js:96-117 | the left-key pass of an object against itself makes no call |
| WalkFacts.RightKeysSelf | jdd.js:125-141 | the right-key pass of an object against itself makes no call |
| WalkFacts.ExtraElementsForm | jdd.js:206-212 | a longer right array gives one missing-element request per extra index, in ascending order |
| WalkFacts.ArrayElementsTail | jdd.js:212-230 | a longer left array's extra indices each give one missing-element request, in ascending order after the common ones |
| WalkFacts.ArrayShape | jdd.js:193-231 | a longer right array's extras come before any element comparison; a longer left array's extras come after the common indices; either way there are exactly \|len1 - len2\| of them |
| WalkFacts.RightKeysForm | jdd.js:125-141 | the right-key pass gives one missing-left request per right key the left object lacks, in right-key order |
| WalkFacts.LeftKeysDisjoint | jdd.js:96-117 | when no left key is on the right, the left pass gives one missing-right request per left key, in left-key order |
| WalkFacts.ObjectWithoutLength | jdd.js:77-141 | without a `length` key on the left, an object comparison is the left-key pass followed by the right-key pass |
| WalkFacts.PreScanPath | jdd.js:84-88 | the pre-scan's right path is the right stack, then "//#", then the raw key |
| Engine.FindPath | jdd.js:521-526 | the search returns the first record of the path, or none |
| Engine.Jdd.constructor | jdd.js:1076 | the diff list starts empty |
| Engine.Jdd.GenerateDiff | jdd.js:513-542 | the method returns what `Paths.GenerateDiff` gives: the two records or the throw |
| Engine.Jdd.Emit | jdd.js:154-156 | pushes the diff, or throws without pushing, as resolving the one request gives |
| Engine.Jdd.EmitHere | jdd.js:154-156 | the same, for the current node paths of both stacks |
| Engine.Jdd.DiffVal | jdd.js:148-187 | `jdd.diffs` grows by the resolution of `Walk`'s requests and throws exactly when it does; without a throw both stacks are back as they were |
| Engine.Jdd.DiffBool | jdd.js:236-252 | the same for `WalkBool` |
| Engine.Jdd.DiffArray | jdd.js:193-231 | the same for `WalkArray`, stacks restored when nothing is thrown |
| Engine.Jdd.AddExtraElements | jdd.js:206-212 | the right-extras loop pushes the resolution of its requests |
| Engine.Jdd.AddExtraElement | jdd.js:207-211 | one pass of that loop pushes the resolution of its one request |
| Engine.Jdd.CompareElements | jdd.js:212-230 | the element loop pushes the resolution of its requests, stacks restored when nothing is thrown |
| Engine.Jdd.CompareElement | jdd.js:214-229 | one element callback pushes the resolution of its requests, stacks restored when nothing is thrown |
| Engine.Jdd.FindDiffs | jdd.js:69-142 | `findDiffs` pushes the resolution of `WalkObject`'s requests, both stacks restored when nothing is thrown |
| Engine.Jdd.ScanRightExtras | jdd.js:77-90 | the pre-scan pushes the resolution of its requests |
| Engine.Jdd.ScanRightKey | jdd.js:82-88 | one pass of the pre-scan pushes the resolution of its requests |
| Engine.Jdd.CompareLeftKeys | jdd.js:96-117 | the left-key loop pushes the resolution of its requests, stacks restored when nothing is thrown |
| Engine.Jdd.CompareLeftKey | jdd.js:97-115 | one left key pushes the resolution of its requests, stacks restored when nothing is thrown |
| Engine.Jdd.AddLeftMissing | jdd.js:125-141 | the right-key loop pushes the resolution of its requests |
| Engine.Jdd.AddLeftMissingKey | jdd.js:126-140 | one right key pushes the resolution of its requests |
| Agreement.KeyPath | jdd.js:136-137 | the path `generatePath(config2, key)` gives a right-only key is the node path the printer records for that member after pushing "/" and the key's segment (jdd.js:265-279) |
| Agreement.MemberLands | jdd.js:514-520 | a member whose segment does not end in "/" lands on a record after stripping: a non-empty segment keeps its own path, and the empty key strips back to its object's path |
| Agreement.WalkResolvable | jdd.js:148-187 | when both nodes and everything below them are recorded, at stacks whose stripped paths are recorded too, every request of the comparison resolves |
| Agreement.ObjectResolvable | jdd.js:69-142 | likewise for an object comparison, whose "/" segment `generateDiff` strips back to the object's own path |
| Agreement.CompareResolves | jdd.js:1082-1090 | for two printed documents, with no `length` key on the left and safe keys on both sides, the comparison throws nothing and makes one diff per request from the two records of its paths |
| Report.FindLineBasedOnPath | jdd.js:1090-1096 | the loop returns the line of the first record of the path, or `undefined` |
| Report.ParityTables | jdd.js:1116-1122 | the loop builds exactly the two line-correspondence tables |
| Report.LeftRightSpec | jdd.js:1116-1122 | the left-right table's keys are exactly the left lines, each mapped to the right line of the same path |
| Report.ParityRoundTrip | jdd.js:1116-1122 | every right line in the right-left table leads back to itself through the left-right table, and maps to a left line |
| Report.InsertByLine | jdd.js:824-826 | an insertion step adds exactly the one diff |
| Report.InsertByLineSorted | jdd.js:824-826 | inserting into a list sorted by left line keeps it sorted |
| Report.SortByLineSpec | jdd.js:824-826 | the sorted diffs are in left-line order and are a permutation of the original diffs |
| Report.InsertByLineStable | jdd.js:824-826 | inserting keeps the order of the diffs on each line |
| Report.SortByLineStable | jdd.js:824-826 | the sort is stable: the diffs of every left line keep the order `diffVal` found them in |
| Report.CountKinds | jdd.js:903-914 | the counting loop returns the number of TYPE, EQUALITY and MISSING diffs |
| Report.CountsTotal | jdd.js:903-914 | the three counts add up to the number of diffs |
| Report.CountSorted | jdd.js:903-914 | sorting does not change any count |
| Comparison.PrintDocument | jdd.js:1082-1088 | a fresh config ends in the state `Render.Print` gives for the document |
| Comparison.SortAndCount | jdd.js:824-826 | the diffs are sorted when asked, the same diffs either way, and are counted by kind, the counts adding up to their number |
| Comparison.Compare | jdd.js:1076-1128 | both printed texts, both line tables, the diffs (sorted when nothing is thrown), the thrown message and the counts are those of the specification functions; with no `length` key on the left and safe keys, nothing is thrown and there is one diff per request |

## Left out

- The DOM and jQuery code is left out: `formatPRETags`, `formatTextAreas`, the highlight and click handlers, the class wiring of `processDiffs` and the HTML of `generateReport`. Only its pure parts are modelled: the line tables, the sort and the counts.
- Network and file input, `validateInput` and `JSON.parse` are left out. The model starts from parsed `Value`s.
- The `Diff.diffChars` post-processing, the URL and UUID rewriting, and `findPathBasedOnLine` are left out. `findPathBasedOnLine` is used only by that post-processing. All of it is glue over a foreign diff library and the DOM.
- Numbers are mathematical integers. JavaScript doubles and their text form (`val + ','`) are not modelled; the text is written as decimal digits.
- `localeCompare` is modelled as code-point lexicographic order, a strict total order. Locale rules are not modelled.
- JavaScript's loose `<` on `length` members: undefined, null, booleans, numbers and strings of decimal digits convert to numbers, and two strings compare by code points. Arrays, objects and other strings count as NaN, so the test is false. `Number()` rules beyond these are not modelled.
- Strings are sequences of characters. UTF-16 code units are not modelled, so `length` and character indices of astral characters differ from JavaScript's.
- A throw from `generateDiff` is modelled as the returned `Option<Thrown>`. Every statement after it is skipped, as in the source. The message text is a function of the `Message` and `Thrown` datatypes (`MessageText`, `ThrownText`), not a stored string.
- Engine.Jdd.DiffVal: the path stacks are stated only for a run that did not throw. After a throw the source leaves them unbalanced, and `compare` abandons them.
- Comparison.Compare: after a throw the source shows no report. The model still returns the diffs collected before the throw and their counts.
- Objects with duplicate keys are not ruled out by the model. `hasOwnProperty` and `data[key]` find the first such key, and `JSON.parse` never produces duplicates.
- Swapping the two documents is not related by any lemma: the report is not symmetric, and no symmetry property is stated.
- Agreement.CompareResolves: stated only for documents without a `length` key on the left and with safe keys. With a `length` key the pre-scan can build a path that is never recorded (`WalkFacts.PreScanPath`).
- Agreement.CompareResolves: the test on keys is on their segment, not the raw key. The key "b/" has the segment "b#" and is safe. A key whose segment ends in "/", such as "a/b/" with segment "a#b/", has its path stripped by `generateDiff` (jdd.js:514-520) to one the printer never recorded. The empty key is admitted: its path is its object's path plus "/", which strips back to the object's own record (the root's at line 1 at the top level), so its diffs carry that record.
- SortedProperties: an object with its own key "hasOwnProperty" makes `obj.hasOwnProperty(prop)` at jdd.js:498 call a number, string or other JSON value, which throws a TypeError. The model has no such throw and returns the keys. `Agreement.SafeKey` excludes the key, so the agreement theorem does not cover such documents.
- GetSortedProperties: the same TypeError at jdd.js:498 is not modelled; the method returns the sorted keys.
- ObjectKeys: the loop it stands for (jdd.js:497-501) throws that TypeError on such an object; the method returns its keys.
- PrintDocument: a document holding an own "hasOwnProperty" key anywhere is printed. The source throws out of `formatAndDecorate` (jdd.js:1083 or 1087) and `compare` stops there.
- Comparison.Compare: for a document with an own "hasOwnProperty" key it returns the printed texts, tables and diffs of the model. The source throws out of printing with nothing caught. Its no-throw promise is stated only for safe keys, which exclude this key.
- Member: `data1.hasOwnProperty(key)` and `data2.hasOwnProperty(key)` in `findDiffs` (jdd.js:83-135) would throw the same TypeError. Within `compare` the printer throws first, so this is not modelled.
