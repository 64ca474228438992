# WP Clean Admin, modelled in Dafny

WP Clean Admin is a WordPress plugin that tidies up the admin area. It
removes dashboard widgets, menu items and WordPress branding, manages
custom menu orders, cleans up and defers scripts and styles, caches
values, limits login attempts and keeps the plugin's settings. Next to
the plugin, the repository has tools for its translation catalogues:
- `update-pot.py` extracts the calls to the translation functions into a
  `.pot` template;
- `check-translations.py` inspects the languages directory;
- `compile-mo.php`, `generate_mo.php` and `generate_mo_improved.php`
  write binary `.mo` catalogues;
- `normalize_line_endings.php` rewrites text files with Unix line
  endings.

This project models the plugin's core classes and those tools, and proves
properties of the model:
- A PHP array is an ordered list of key/value entries (`PhpValues`).
- PHP's string functions are written out on `seq<char>` (`PhpStrings`).
- Each source file has its own module:
  - what its functions compute becomes a function;
  - the loops over lists and files become methods with loop invariants,
    proved against those functions;
  - the classes whose methods update their own fields become Dafny
    classes.

WordPress itself stays outside the model. Options, transients, hooks,
the current user, the clock, the file system and the network are
parameters of the operations that use them, or are held as plain state.
The "## Left out" list says which.

Each row of the table below names a Dafny member, the source lines it
models and what its contract states.

## Model

| member | source | states |
|---|---|---|
| TranslationCalls.SepEnd | update-pot.py:21-32 | the greedy `[,\s]*` run: every character up to the end is a separator and the next one is not |
| TranslationCalls.WordEnd | update-pot.py:24-25 | the greedy run of `[a-zA-Z0-9_]` characters of a count argument, ended by a non-word character |
| TranslationCalls.MatchArgs | update-pot.py:21-32 | a match of the remaining arguments and the domain tail from position i ends after i and within the text |
| TranslationCalls.TryPayload | update-pot.py:21-32 | the lazy `(.+?)["']` step, which tries ever longer payloads, ends a match after its start |
| TranslationCalls.MatchAt | update-pot.py:53 | a match at position i ends after i and within the text |
| TranslationCalls.FindAll | update-pot.py:53 | every match `re.findall` reports lies inside the text and starts at or after the scan position |
| TranslationCalls.MatchArgsSound | update-pot.py:21-32 | each match the backtracking matcher reports parses as the pattern's language, with the groups it reports |
| TranslationCalls.TryPayloadSound | update-pot.py:21-32 | each payload the lazy step accepts belongs to a parse of the pattern from the opening quote |
| TranslationCalls.MatchAtSound | update-pot.py:21-32 | every match reported at a position is a string of the pattern's language, with its groups |
| TranslationCalls.MatchArgsComplete | update-pot.py:21-32 | if some parse of the arguments exists from i, the matcher finds one, and its group lengths come no later in the lexicographic order Python tries them in |
| TranslationCalls.TryPayloadComplete | update-pot.py:21-32 | the lazy payload step finds a match whenever some parse exists, with groups no later than that parse's |
| TranslationCalls.TryPayloadNoLater | update-pot.py:21-32 | trying payload ends in turn reaches a working end no later than a given parse's |
| TranslationCalls.MatchAtComplete | update-pot.py:21-32 | whenever the pattern matches at i, MatchAt finds a match there whose groups are the shortest in the order Python tries them |
| TranslationCalls.FindAllOrdered | update-pot.py:53 | the matches findall returns follow one another without overlapping |
| TranslationCalls.FindAllHits | update-pot.py:53 | every reported match is the leftmost-first match at its start |
| TranslationCalls.FindAllNoSkip | update-pot.py:53 | no match is skipped: every position where the pattern matches lies inside a reported match |
| TranslationCalls.HitEndsWithDomain | update-pot.py:21-32 | every reported match ends with the quoted `wp-clean-admin` domain and the closing parenthesis |
| TranslationCalls.FindAllNeedsDomain | update-pot.py:21-32 | a text that never mentions the domain yields no match, whatever the pattern |
| TranslationCalls.ParsesGroups | update-pot.py:21-32 | a parse has one group per text argument, each non-empty, and without DOTALL none crosses a line |
| TranslationCalls.FindAllGroups | update-pot.py:53 | every group findall reports is non-empty, there is one per text argument, and without DOTALL no group crosses a line |
| TranslationCalls.MatchAtGroups | update-pot.py:53 | the groups of a match at one position satisfy the same shape |
| UpdatePot.PatternsFor | update-pot.py:19-34 | the PHP and JS pattern lists for "php" and "js", none for any other extension; every pattern is matched with DOTALL |
| UpdatePot.LastDot | update-pot.py:39 | the index of the last '.' of a name, or -1 when it has none |
| UpdatePot.Extension | update-pot.py:39 | `splitext(...)[1].lstrip('.')` holds no dot and, when non-empty, ends the name after a dot |
| UpdatePot.ExtensionOfDotted | update-pot.py:39 | a name `stem.ext` has the extension `ext` |
| UpdatePot.Emitted | update-pot.py:55-62 | a one-group match contributes its string; a match with more groups contributes its first two, and nothing else |
| UpdatePot.ExtractStrings | update-pot.py:36-64 | the extraction loop returns exactly the strings of the extraction function: nothing for other extensions or an unreadable file, otherwise the emitted groups of each pattern's matches in order |
| UpdatePot.ApplyPatterns | update-pot.py:51-62 | the loop over the patterns returns the concatenated strings of each pattern's findall result |
| UpdatePot.EmitHits | update-pot.py:54-62 | the loop over one findall result returns each match's emitted strings in order |
| UpdatePot.ExtractNeedsDomain | update-pot.py:21-32 | a file that never names the text domain contributes no string |
| UpdatePot.ExtractOtherFiles | update-pot.py:41-49 | a file whose extension has no patterns, or that cannot be read, contributes nothing |
| UpdatePot.ExtractedArePayloads | update-pot.py:36-64 | every extracted string is a non-empty captured payload of a match of one of the extension's patterns |
| UpdatePot.Dedup | update-pot.py:80 | `list(set(...))` holds no duplicates and exactly the strings found |
| UpdatePot.ScanDirectory | update-pot.py:66-80 | the walk returns a duplicate-free list of exactly the strings the scanned files contribute |
| UpdatePot.ScanAppend | update-pot.py:70-78 | the scan of two parts of the walk is the scan of the first part followed by the second |
| UpdatePot.ScanSkips | update-pot.py:72-75 | a file below vendor, node_modules or .git, a file that is not .php or .js, and an unreadable file add nothing, and the scan goes on after them |
| UpdatePot.SkippedFile | update-pot.py:72-75 | such a file on its own contributes nothing |
| UpdatePot.Insert | update-pot.py:105 | inserting into an ascending list keeps it ascending and adds exactly the one string |
| UpdatePot.SortStrings | update-pot.py:105 | `sorted(...)` is ascending in code-point order and a permutation of its input |
| UpdatePot.SortedDistinct | update-pot.py:80-105 | sorting the duplicate-free scan result gives a list without duplicates |
| UpdatePot.Escape | update-pot.py:107 | an escaped msgid holds no newline |
| UpdatePot.EscapeChainedIsEscape | update-pot.py:107 | the three chained replacements, backslash first, escape each character on its own |
| UpdatePot.UnescapeEscape | update-pot.py:107 | reading the escapes back recovers the original string: the escaping loses nothing |
| UpdatePot.EntryList | update-pot.py:104-111 | one entry per string, in order, each the escaped msgid with an empty msgstr |
| UpdatePot.GeneratePot | update-pot.py:82-113 | the template is the corrected header (each field ending in the two characters `\n`, see Findings) followed by the entries of the sorted strings |
| UpdatePot.FieldLines | update-pot.py:89-101 | the corrected header has one quoted line per field, ending in the escape `\n` |
| UpdatePot.FieldLinesAsWritten | update-pot.py:89-101 | as written, the f-string turns each field's `\n` into a line break: two lines per field |
| UpdatePot.QuotedFieldsLines | update-pot.py:86-102 | the header text is the lines of the corrected fields, and as written the lines of the broken fields |
| UpdatePot.EntriesAsLines | update-pot.py:104-113 | the entries are a list of lines without newlines, each closing the PO string it opens |
| UpdatePot.EntryLinesIn | update-pot.py:104-113 | every line of the entries is a line of one entry |
| UpdatePot.EntryLinesShape | update-pot.py:108-111 | an entry's lines hold no newline and close every PO string they open |
| UpdatePot.PotLinesClosed | update-pot.py:82-113 | with the corrected header, the template is a list of lines each of which closes the PO string it opens, and the entries split at their newlines into exactly their lines |
| UpdatePot.HeaderLinesClosed | update-pot.py:86-102 | the corrected header's lines close every PO string they open |
| UpdatePot.PotHeaderAsWrittenBroken | update-pot.py:86-102 | as written, the line after the first field's text is a lone quote, which opens a PO string and never closes it |
| UpdatePot.PotHeaderCharset | update-pot.py:96 | the header declares the UTF-8 charset |
| UpdatePot.PotEntriesAppend | update-pot.py:113 | the entries of two lists are the entries of the first followed by those of the second |
| UpdatePot.PotEntriesShape | update-pot.py:104-113 | after the header come the entries: the k-th is the escaped k-th string of the sorted list with an empty msgstr |
| CheckTranslations.WithSuffix | check-translations.py:37-39 | the names of the listing that end in the suffix, in listing order, and nothing else |
| CheckTranslations.PotIsNotPo | check-translations.py:37-39 | a name ending in `.pot` never ends in `.po`: the two lists are disjoint |
| CheckTranslations.MoNameEndsInMo | check-translations.py:60 | the name with every `.po` replaced by `.mo` ends in `.mo` for every `.po` name |
| CheckTranslations.MissingMo | check-translations.py:58-62 | the loop returns exactly the `.po` files whose `.mo` name is not among the `.mo` files |
| CheckTranslations.MissingSpecMembers | check-translations.py:58-62 | a file is reported missing its binary exactly when it is a `.po` file and its `.mo` name is not listed |
| CheckTranslations.MissingIff | check-translations.py:35-62 | a `.po` file of the listing is reported exactly when its `.mo` name is not in the listing at all |
| CheckTranslations.NameLocale | check-translations.py:80 | a name conforms exactly when it is `wp-clean-admin-xx_YY.po`, or that with one trailing newline, which Python's `$` also accepts; the locale is its captured part |
| CheckTranslations.CheckName | check-translations.py:80-89 | the verdict is valid exactly for a conforming name with a known locale, with that locale's language; a warning for a conforming unknown locale; invalid otherwise |
| CheckTranslations.KnownCatalogueName | check-translations.py:16-20 | a catalogue named after one of the three known locales is accepted with its language |
| CheckTranslations.UnknownCatalogueName | check-translations.py:86 | a well-shaped locale outside the known three gets the unknown-locale warning |
| CheckTranslations.LazyEnd | check-translations.py:103-104 | the lazy `(.+?)\\n"` payload ends at the first field end from j, with none before it |
| CheckTranslations.LineEnd | check-translations.py:105 | the end of the line that starts at a holds no newline before it |
| CheckTranslations.GreedyEnd | check-translations.py:105 | the greedy `(.+)\\n"` payload ends at the last field end on the line, with none after it |
| CheckTranslations.PayloadEndAt | check-translations.py:103-105 | the payload end is the shortest, or for the greedy Content-Type pattern the longest, end of any payload from that start |
| CheckTranslations.SearchField | check-translations.py:103-105 | `re.search` finds the leftmost start at which the field matches, and at it the shortest or longest payload |
| CheckTranslations.FieldValue | check-translations.py:103-111 | a field has a value exactly when its pattern matches somewhere; the value is non-empty and on one line |
| CheckTranslations.CheckHeaders | check-translations.py:95-122 | an unreadable catalogue is reported as such; otherwise the three header searches run independently over the whole text |
| CheckTranslations.FieldValueAt | check-translations.py:103-105 | the value is the payload of the leftmost match, cut at its shortest or longest end |
| CheckTranslations.FieldLineRead | check-translations.py:103-111 | a header line `field v\n"` is read back as v when no earlier match starts before it |
| CheckTranslations.PayloadOnLine | check-translations.py:103-105 | a payload closed by the field end just before a line break is the only candidate of its kind |
| CheckTranslations.Utf8Accepted | check-translations.py:116-117 | a catalogue whose first Content-Type line declares exactly UTF-8 gets no charset warning |
| CheckTranslations.NoContentTypeWarns | check-translations.py:116-119 | without a Content-Type line the charset warning is given |
| CheckTranslations.UsagePattern | check-translations.py:152 | the usage pattern for a function has one text argument and is matched without DOTALL |
| CheckTranslations.PhpFiles | check-translations.py:129-133 | exactly the `.php` files of the walk outside vendor, node_modules, .git and languages, in walk order |
| CheckTranslations.CollectPhpFiles | check-translations.py:128-133 | the walk loop collects exactly those files |
| CheckTranslations.CountCalls | check-translations.py:137-157 | one count per function, in the order `__`, `_e`, `_x`, `_n`, `_nx`; each is that function's number of matches over all scanned files |
| CheckTranslations.CountAppend | check-translations.py:145-154 | the count over two parts of the file list is the sum of the counts over each |
| CheckTranslations.UsageSkips | check-translations.py:130-132 | a file below a pruned directory, or not ending in `.php`, is never scanned |
| CheckTranslations.FileCountNeedsDomain | check-translations.py:152-154 | a file that never mentions the text domain counts no call |
| CheckTranslations.CountNeedsDomain | check-translations.py:145-154 | files that never mention the domain count no call of any function |
| CheckTranslations.CountedPayloads | check-translations.py:152-153 | every counted call's payload is non-empty and stays on one line |
| CheckTranslations.CheckCatalogues | check-translations.py:78-122 | each `.po` file gets its name verdict and its header check, in order |
| CheckTranslations.CheckTranslationFiles | check-translations.py:22-177 | a missing directory gives only the error; otherwise the report holds the three lists, the missing binaries, each catalogue's checks and the call counts |
| CheckTranslations.NoDomainWarns | check-translations.py:159-166 | with no scanned file mentioning the text domain, the total is 0 and the no-calls warning is given |
| UpdatePot.PotHeaderAsWritten | update-pot.py:86-102 | the header exactly as the f-string writes it, with a real line break inside each quoted field; PotHeaderAsWrittenBroken states what that does to the PO syntax |
| UpdatePot.PotHeader | update-pot.py:86-102 | the header with each field ending in the PO escape `\n` inside its quotes; PotLinesClosed and PotHeaderCharset state its properties |
| MoFormat.ByteOf | wpcleanadmin/languages/generate_mo_improved.php:415-421 | a written byte is the value modulo 256 |
| MoFormat.Word | wpcleanadmin/languages/generate_mo_improved.php:415-421 | `pack('V')`/`pack('N')` write four bytes |
| MoFormat.WordRoundTrip | wpcleanadmin/languages/generate_mo_improved.php:415-421 | a written word reads back as the number modulo 2^32 in its own byte order |
| MoFormat.WordAtRoundTrip | wpcleanadmin/languages/generate_mo_improved.php:415-421 | a word written between two pieces reads back at its position |
| MoFormat.Zeros | wpcleanadmin/languages/generate_mo_improved.php:454-458 | n zero words are 4n bytes |
| MoFormat.StringTableAppend | wpcleanadmin/languages/generate_mo_improved.php:444-451 | the string table of two lists is the first's table followed by the second's |
| MoFormat.StringTableEntry | wpcleanadmin/languages/generate_mo_improved.php:444-451 | string k of a table sits at its start offset, followed by a NUL |
| MoFormat.Words | wpcleanadmin/languages/generate_mo_improved.php:415-421 | a list of n words is 4n bytes |
| MoFormat.WordsRead | wpcleanadmin/languages/generate_mo_improved.php:415-421 | where a file holds the words ns from byte p on, word i reads back as ns[i] modulo 2^32 |
| MoFormat.DescWordsIn | wpcleanadmin/languages/generate_mo_improved.php:426-441 | descriptor k of a table holds the length of string k and its offset from the table's base |
| MoFormat.DescWords | wpcleanadmin/languages/generate_mo_improved.php:426-441 | the descriptor words are each string's length and absolute offset, interleaved |
| MoFormat.DescWordsAt | wpcleanadmin/languages/generate_mo_improved.php:428-430 | word 2k is the length of string k and word 2k+1 its offset |
| MoFormat.DescTable | wpcleanadmin/languages/generate_mo_improved.php:426-441 | a descriptor table is 8 bytes per string |
| MoFormat.StringAt | wpcleanadmin/languages/generate_mo_improved.php:426-451 | a descriptor resolves to a string only when its descriptor lies in the file |
| MoFormat.ReadMessages | wpcleanadmin/languages/generate_mo_improved.php:392-458 | the n messages read back exist exactly when every descriptor resolves, and pair the strings the two tables point to |
| MoFormat.Zip | wpcleanadmin/languages/generate_mo_improved.php:401-406 | the messages pair each original with its translation, in order |
| MoFormat.EntryAtRead | wpcleanadmin/languages/generate_mo_improved.php:426-451 | in a file shorter than 2^32 bytes, a descriptor laid out as written reads back its string |
| MoFormat.DescTableStep | wpcleanadmin/languages/generate_mo_improved.php:426-431 | each pass of the descriptor loop appends one descriptor (length, offset) |
| MoFormat.StringTableStep | wpcleanadmin/languages/generate_mo_improved.php:444-446 | each pass of the string loop appends one NUL-terminated string |
| MoFormat.ZerosStep | wpcleanadmin/languages/generate_mo_improved.php:454-458 | each pass of the hash loop appends one zero word |
| MoFormat.DecodeParts | wpcleanadmin/languages/generate_mo_improved.php:392-458 | a file made of a header, both descriptor tables, any gap, and both string tables, with every offset pointing where its string is, decodes to exactly those messages |
| MoFormat.DecodeFromTables | wpcleanadmin/languages/generate_mo_improved.php:392-458 | a file with a header for the messages and both tables where it says decodes to those messages |
| MoFormat.Offsets | wpcleanadmin/languages/generate_mo_improved.php:424-441 | the absolute offset of every string of a table placed at a base |
| MoFormat.StringInFile | wpcleanadmin/languages/generate_mo_improved.php:444-451 | string k of a placed table is in the file, NUL-terminated |
| MoFormat.DescInFile | wpcleanadmin/languages/generate_mo_improved.php:426-441 | descriptor k of a placed table holds the words for the length and offset of string k |
| MoFormat.Header | wpcleanadmin/languages/generate_mo_improved.php:415-421 | the header is seven words, 28 bytes |
| MoFormat.DecodeLayout | wpcleanadmin/languages/generate_mo_improved.php:392-458 | a file shorter than 2^32 bytes that starts with a header for n messages, and whose two tables lay out the strings where the header says, decodes to exactly those messages |
| MoFormat.ReadZip | wpcleanadmin/languages/generate_mo_improved.php:392-458 | resolving descriptors in both tables gives the zipped messages |
| MoFormat.HeaderRead | wpcleanadmin/languages/generate_mo_improved.php:415-421 | the header reads back as magic, revision 0, the count and the table offsets in its own byte order, and the magic is not found in the other byte order |
| MoFormat.MagicOneOrder | wpcleanadmin/languages/generate_mo_improved.php:392 | 0x950412de read in the other byte order is not the magic number, so a reader can tell the byte order |
| Directory.MoNameSuffix | wpcleanadmin/languages/generate_mo_improved.php:334 | a name whose only `.po` is its suffix gets the suffix `.mo` and is otherwise unchanged |
| GenerateMoImproved.GuardsAsWritten | wpcleanadmin/languages/generate_mo_improved.php:45-54 | only extract_po_header's function_exists guard passes; every other guard names a language construct and fails |
| GenerateMoImproved.ParseAsWrittenEmpty | wpcleanadmin/languages/generate_mo_improved.php:168-180 | as written, parse_po_file returns an empty array for every content |
| GenerateMoImproved.ParsePoFile | wpcleanadmin/languages/generate_mo_improved.php:166-255 | the parser returns exactly the entries of the line-by-line state machine, with the last open entry saved |
| GenerateMoImproved.ParseLines | wpcleanadmin/languages/generate_mo_improved.php:190-244 | the foreach over the lines ends in the state the line function reaches from the empty state |
| GenerateMoImproved.ParseOneLine | wpcleanadmin/languages/generate_mo_improved.php:191-243 | one pass of the foreach applies the line function to the open entry |
| GenerateMoImproved.SaveStored | wpcleanadmin/languages/generate_mo_improved.php:202-207 | saving an open entry keeps the stored entries well formed |
| GenerateMoImproved.ParseFromInv | wpcleanadmin/languages/generate_mo_improved.php:190-244 | the stored entries stay well formed over any lines |
| GenerateMoImproved.ParseStored | wpcleanadmin/languages/generate_mo_improved.php:202-247 | parse_po_file never stores an empty msgid, so the header block is dropped; a repeated msgid has one key; every value is an array with its msgstr and comments |
| GenerateMoImproved.SaveLookup | wpcleanadmin/languages/generate_mo_improved.php:203-251 | saving overwrites the msgid's earlier value, so the last occurrence wins, and leaves other keys alone |
| GenerateMoImproved.ContinuationLine | wpcleanadmin/languages/generate_mo_improved.php:222-227 | a fully quoted line extends whichever of msgid and msgstr was opened last |
| GenerateMoImproved.CommentsReset | wpcleanadmin/languages/generate_mo_improved.php:194-241 | comment lines are collected until an entry is saved; the saved entry takes them and the collection starts empty |
| GenerateMoImproved.MsgidFlags | wpcleanadmin/languages/generate_mo_improved.php:144 | one flag per line, telling whether its trimmed text starts with `msgid` |
| GenerateMoImproved.HeaderEnd | wpcleanadmin/languages/generate_mo_improved.php:143-155 | the header ends at the second msgid line, or at the end, with at most one msgid line before that point |
| GenerateMoImproved.ExtractPoHeader | wpcleanadmin/languages/generate_mo_improved.php:126-158 | extract_po_header returns the header function's text |
| GenerateMoImproved.HeaderLines | wpcleanadmin/languages/generate_mo_improved.php:141-155 | the loop keeps exactly the lines before the second line whose trimmed text starts with `msgid` |
| GenerateMoImproved.HeaderEndAll | wpcleanadmin/languages/generate_mo_improved.php:143-155 | with at most one msgid line, every line is kept |
| GenerateMoImproved.PoHeaderPrefix | wpcleanadmin/languages/generate_mo_improved.php:126-158 | the header is a prefix of the catalogue, and a non-empty catalogue with at most one msgid line is all header |
| GenerateMoImproved.IssetValueIsSet | wpcleanadmin/languages/generate_mo_improved.php:282-287 | `isset($entry[k])` holds exactly when the key is set, and then gives the value |
| GenerateMoImproved.PoContentAsWrittenHeader | wpcleanadmin/languages/generate_mo_improved.php:266-274 | as written, generate_po_content returns only the header |
| GenerateMoImproved.GeneratePoContent | wpcleanadmin/languages/generate_mo_improved.php:276-292 | the content is the header, a blank line, and one block per non-empty msgid entry |
| GenerateMoImproved.AppendBlock | wpcleanadmin/languages/generate_mo_improved.php:279-289 | one pass of the loop appends the entry's comments, msgid line and msgstr line |
| GenerateMoImproved.Collected | wpcleanadmin/languages/generate_mo_improved.php:398-406 | the collected originals and translations have the same length, at most the number of entries |
| GenerateMoImproved.CollectedAll | wpcleanadmin/languages/generate_mo_improved.php:401-406 | every entry is collected exactly when each is a non-empty string msgid with a string translation |
| GenerateMoImproved.CollectedFrom | wpcleanadmin/languages/generate_mo_improved.php:401-406 | collected pair k is the msgid and translation of a collected entry |
| GenerateMoImproved.CollectStrings | wpcleanadmin/languages/generate_mo_improved.php:398-406 | the foreach fills the two lists as Collected says |
| GenerateMoImproved.AppendDescriptors | wpcleanadmin/languages/generate_mo_improved.php:426-441 | the loop writes one descriptor per string and moves the running offset past each string and its NUL |
| GenerateMoImproved.AppendStrings | wpcleanadmin/languages/generate_mo_improved.php:444-451 | the loop writes every string followed by a NUL byte |
| GenerateMoImproved.AppendZeros | wpcleanadmin/languages/generate_mo_improved.php:454-458 | the loop writes n zero words |
| GenerateMoImproved.WriteMoBody | wpcleanadmin/languages/generate_mo_improved.php:392-460 | the body of generate_mo_content writes exactly the as-written layout: header, both descriptor tables, both string tables and the zero words |
| GenerateMoImproved.AppendTables | wpcleanadmin/languages/generate_mo_improved.php:424-441 | the descriptor tables written after the header count their offsets from 28+20N |
| GenerateMoImproved.MoContentAsWrittenEmpty | wpcleanadmin/languages/generate_mo_improved.php:382-390 | as written, generate_mo_content returns the empty string |
| GenerateMoImproved.MoLayoutDecodes | wpcleanadmin/languages/generate_mo_improved.php:392-458 | the corrected catalogue, shorter than 2^32 bytes, decodes to exactly the collected messages in order |
| GenerateMoImproved.MoBodyHeaderAsWritten | wpcleanadmin/languages/generate_mo_improved.php:392-421 | the header written counts every entry (N) and puts the originals at 28 |
| GenerateMoImproved.MoBodyTablesAsWritten | wpcleanadmin/languages/generate_mo_improved.php:424-451 | the descriptor tables sit at 28 and 28+8M with offsets counted from 28+20N, while the strings start at 28+16M |
| GenerateMoImproved.MoBodyCounterexample | wpcleanadmin/languages/generate_mo_improved.php:424 | for one message ("a", "b"), both descriptors point into the trailing zero words: the file decodes to ("\0", "\0") |
| GenerateMoImproved.MoBodyCountAsWritten | wpcleanadmin/languages/generate_mo_improved.php:394-402 | a msgid that PHP made an integer key is counted but not written, so the header names a descriptor past the end |
| GenerateMoImproved.WriteMoContent | wpcleanadmin/languages/generate_mo_improved.php:392-460 | the corrected writer runs the same loops with the count and the string offsets placed where they belong |
| GenerateMoImproved.AppendLayoutTables | wpcleanadmin/languages/generate_mo_improved.php:424-441 | the corrected descriptor tables count from 28+20M, past the zero words |
| GenerateMoImproved.MoContentDecodes | wpcleanadmin/languages/generate_mo_improved.php:380-461 | the corrected catalogue of any entry list, shorter than 2^32 bytes, decodes to the collected messages |
| GenerateMoImproved.EmptyKeyString | wpcleanadmin/languages/generate_mo_improved.php:355 | a key is empty exactly when the string it came from is empty in PHP's sense, "0" included |
| GenerateMoImproved.FilterEntries | wpcleanadmin/languages/generate_mo_improved.php:353-358 | the foreach builds the msgid => msgstr array of the entries that have a non-empty msgid and a msgstr |
| GenerateMoImproved.Translations | wpcleanadmin/languages/generate_mo_improved.php:356 | each parsed entry becomes its msgid with its msgstr, in order |
| GenerateMoImproved.FilterStored | wpcleanadmin/languages/generate_mo_improved.php:353-358 | on what parse_po_file stores, the filter keeps every entry with its msgstr |
| GenerateMoImproved.KeptLast | wpcleanadmin/languages/generate_mo_improved.php:355-356 | a stored entry passes the filter with its msgstr |
| GenerateMoImproved.MoFileAsWrittenFails | wpcleanadmin/languages/generate_mo_improved.php:316-319 | as written, generate_mo_file fails at once and leaves the directory unchanged |
| GenerateMoImproved.GenerateMoFile | wpcleanadmin/languages/generate_mo_improved.php:321-370 | the corrected generate_mo_file returns the outcome and directory of its specification |
| GenerateMoImproved.MoFileOutcome | wpcleanadmin/languages/generate_mo_improved.php:321-370 | it succeeds exactly when the PO file exists and parses to at least one entry; it then writes the MO file and nothing else; on failure nothing changes |
| GenerateMoImproved.MoFileDecodes | wpcleanadmin/languages/generate_mo_improved.php:334-361 | the MO file written for a PO file decodes to its entries' msgids and msgstrs in order |
| GenerateMoImproved.UpdatePoAsWrittenFails | wpcleanadmin/languages/generate_mo_improved.php:56-59 | as written, update_po_file fails at once and leaves the directory unchanged |
| GenerateMoImproved.UpdatePoFile | wpcleanadmin/languages/generate_mo_improved.php:61-117 | the corrected update_po_file returns the outcome and directory of its specification |
| GenerateMoImproved.UpdatePoOutcome | wpcleanadmin/languages/generate_mo_improved.php:64-101 | it fails without the POT file, or when the POT or an existing PO file parses to nothing, and then changes nothing; otherwise it writes only the PO file, and a new PO file is a copy of the POT |
| GenerateMoImproved.ReplaceOverlay | wpcleanadmin/languages/generate_mo_improved.php:104 | the key-keeping merge keeps every key of the first array and takes the second's value wherever it has the key |
| GenerateMoImproved.UpdatePoMerge | wpcleanadmin/languages/generate_mo_improved.php:104-108 | over an existing PO file, the written catalogue has the PO file's own header and every msgid of the POT or the PO file, with the PO file's entry wherever it has one |
| GenerateMoImproved.ReplaceAppends | wpcleanadmin/languages/generate_mo_improved.php:104 | entries with fresh, distinct keys are appended in order |
| GenerateMoImproved.MergeIntoStrings | wpcleanadmin/languages/generate_mo_improved.php:104 | on string keys alone, array_merge overwrites exactly as the key-keeping merge does |
| GenerateMoImproved.MergeStringKeys | wpcleanadmin/languages/generate_mo_improved.php:104 | where no msgid became an integer key, array_merge and the key-keeping merge agree |
| GenerateMoImproved.MergeRenumbers | wpcleanadmin/languages/generate_mo_improved.php:104 | the msgid "404" is the integer key 404, and array_merge renumbers it, so the merged catalogue has msgids 0 and 1 and loses 404 |
| GenerateMoImproved.ParsePoFileAsWritten | wpcleanadmin/languages/generate_mo_improved.php:166-255 | parse_po_file with its function_exists guard; ParseAsWrittenEmpty states that it is always empty |
| GenerateMoImproved.PoContentSpec | wpcleanadmin/languages/generate_mo_improved.php:276-292 | what generate_po_content returns behind its guard: the header, a blank line and one block per string-keyed array entry; GeneratePoContent is proved to write it and UpdatePoMerge states what update_po_file then saves |
| GenerateMoImproved.GeneratePoContentAsWritten | wpcleanadmin/languages/generate_mo_improved.php:264-293 | generate_po_content with its function_exists guard; PoContentAsWrittenHeader states that only the header comes back |
| GenerateMoImproved.MoBodyAsWritten | wpcleanadmin/languages/generate_mo_improved.php:392-460 | the bytes generate_mo_content writes behind its guard, as written; MoBodyHeaderAsWritten, MoBodyTablesAsWritten, MoBodyCounterexample and MoBodyCountAsWritten state its layout and its faults |
| GenerateMoImproved.GenerateMoContentAsWritten | wpcleanadmin/languages/generate_mo_improved.php:380-460 | generate_mo_content with its function_exists guard; MoContentAsWrittenEmpty states that it is always empty |
| GenerateMoImproved.GenerateMoFileAsWritten | wpcleanadmin/languages/generate_mo_improved.php:302-371 | generate_mo_file with its function_exists guard; MoFileAsWrittenFails states that it fails and writes nothing |
| GenerateMoImproved.UpdatePoFileAsWritten | wpcleanadmin/languages/generate_mo_improved.php:43-118 | update_po_file with its function_exists guard; UpdatePoAsWrittenFails states that it fails and writes nothing |
| GenerateMoImproved.PoContentHasEntries | wpcleanadmin/languages/generate_mo_improved.php:276-292 | the generated text starts with the header, and every entry with a non-empty string key and an array value appears in it as its `msgid` line followed by its `msgstr` line |
| GenerateMoImproved.PoBlocksHasEntry | wpcleanadmin/languages/generate_mo_improved.php:279-290 | the blocks the loop writes contain the two lines of each such entry |
| GenerateMoImproved.BlockHasLines | wpcleanadmin/languages/generate_mo_improved.php:283-289 | a written entry's block ends with its `msgid` and `msgstr` lines |
| CompileMo.CParseFromStep | compile-mo.php:167-205 | each line is one more step of the parser |
| CompileMo.ParsePoContent | compile-mo.php:157-213 | parse_po_content returns exactly the entries of the line-by-line state machine, with the last entry kept when it is complete |
| CompileMo.CParseLines | compile-mo.php:167-205 | the foreach over the lines ends in the state the line function reaches from the empty entry |
| CompileMo.CParseOneLine | compile-mo.php:168-204 | one pass of the foreach applies the line function to the open entry |
| CompileMo.SkippedLineIgnored | compile-mo.php:171-173 | blank and `#` lines can be dropped anywhere without changing what the parser ends with |
| CompileMo.KeywordLineTrim | compile-mo.php:168-171 | a line that starts with a letter or a quote and ends with a quote is its own trim and is not skipped |
| CompileMo.IdLineStep | compile-mo.php:176-187 | a `msgid "x"` line keeps the previous entry if it has both keys, and opens a new entry with msgid x |
| CompileMo.StrLineStep | compile-mo.php:195-199 | a `msgstr "y"` line sets the open entry's msgstr to y |
| CompileMo.ContLineStep | compile-mo.php:190-204 | a quoted continuation line appends its inside to whichever of msgid and msgstr is open |
| CompileMo.ContinuedEntry | compile-mo.php:184-203 | the values are the text between the keyword's quote and the last character, and continuation lines append the text between their first and last character: an entry written over four lines reads back as the two concatenations |
| CompileMo.SaveRendered | compile-mo.php:208-210 | saving the final state keeps the last complete entry |
| CompileMo.RenderState | compile-mo.php:167-205 | after the lines of a non-empty message list, all but the last message are kept and the last is open |
| CompileMo.BlankStep | compile-mo.php:171-173 | the empty piece after a final newline changes nothing |
| CompileMo.ParseContentLines | compile-mo.php:161-212 | text made of newline-terminated lines parses as those lines |
| CompileMo.ParseRender | compile-mo.php:157-213 | parse_po_content reads back every message written one msgid/msgstr pair per entry, in order, the `msgid ""` header entry included |
| CompileMo.UnfinishedDropped | compile-mo.php:178-180 | a msgid line with no msgstr before the next msgid line opens an entry that is dropped |
| CompileMo.UnfinishedState | compile-mo.php:176-199 | the state after such lines holds nothing and has the second entry open |
| CompileMo.Originals | compile-mo.php:135 | the msgids of the entries, in order |
| CompileMo.Translations | compile-mo.php:136 | the msgstrs of the entries, in order |
| CompileMo.OriginalsAtLeast | compile-mo.php:117-120 | `$original_strings_size` is at least 9 bytes per entry |
| CompileMo.CreateMinimalMo | compile-mo.php:92-152 | create_minimal_mo writes exactly the file its specification lays out for the parsed entries |
| CompileMo.SumOriginals | compile-mo.php:117-120 | the foreach adds up Σ(len(msgid)+9) |
| CompileMo.BuildTables | compile-mo.php:130-146 | the foreach builds the interleaved original table, whose offsets count from 28+S, and the translation string table |
| CompileMo.OriginalTableLength | compile-mo.php:139-141 | the interleaved original table is exactly S bytes long |
| CompileMo.TranslationsLength | compile-mo.php:144-145 | the translations table is Σ(len(msgstr)+1) bytes long |
| CompileMo.MinimalMoLength | compile-mo.php:92-152 | the output is empty exactly when no entry was parsed, and otherwise 28 + Σ(len(msgid)+9) + Σ(len(msgstr)+1) bytes long |
| CompileMo.MinimalMoHeader | compile-mo.php:100-127 | the header is big-endian: magic, version 0, one entry per message, originals at 28, translations at 28+S and the hash table at 28+2S |
| CompileMo.MinimalMoCounterexample | compile-mo.php:138-141 | the originals' strings sit between their descriptors, so for the single message ("a", "b") the file has a descriptor that points outside it and does not decode |
| CompileMo.MinimalMoIntendedDecodes | compile-mo.php:92-152 | the corrected writer's file decodes, big-endian, to exactly the parsed messages in order, and nothing is written for none |
| CompileMo.IntendedDecodes | compile-mo.php:100-151 | the corrected layout of two string lists decodes to their pairs |
| CompileMo.CompileRoundTrip | compile-mo.php:92-213 | messages written one pair per entry, parsed and compiled by the corrected writer come back out of the catalogue unchanged |
| CompileMo.ParseContentSpec | compile-mo.php:157-213 | what parse_po_content returns: the line-by-line state machine over the split text, with the last complete entry saved; ParseRender, ParseContentLines and UnfinishedDropped state what it reads |
| CompileMo.MinimalMo | compile-mo.php:92-152 | what create_minimal_mo returns as written: nothing for no entries, otherwise the header, the interleaved original table and the translations; MinimalMoLength, MinimalMoHeader and MinimalMoCounterexample state its properties |
| GenerateMo.GuardsFail | wpcleanadmin/languages/generate_mo.php:26-87 | both function_exists guards list 'empty', which is a language construct, so neither guard can pass |
| GenerateMo.ParseAsWrittenEmpty | wpcleanadmin/languages/generate_mo.php:79-91 | parse_po_file returns the empty array for every input |
| GenerateMo.ParsePoFile | wpcleanadmin/languages/generate_mo.php:93-136 | behind its guard, the foreach leaves exactly the entries of the line-by-line state machine, and empty content gives none |
| GenerateMo.PParseLines | wpcleanadmin/languages/generate_mo.php:100-134 | the foreach ends in the state the line function reaches from the empty state |
| GenerateMo.PParseFromStep | wpcleanadmin/languages/generate_mo.php:100-134 | each line is one more step of the parser |
| GenerateMo.PParseOneLine | wpcleanadmin/languages/generate_mo.php:101-133 | one pass of the foreach: skip blank and `#` lines, then the msgid/msgstr/continuation chain, then the store check |
| GenerateMo.PParseLineInv | wpcleanadmin/languages/generate_mo.php:109-126 | after any line that is not skipped, one of the two strings is open |
| GenerateMo.PParseFromInv | wpcleanadmin/languages/generate_mo.php:100-134 | once a msgid or msgstr line has been read, one of the two strings stays open |
| GenerateMo.ParseNeverStores | wpcleanadmin/languages/generate_mo.php:128-133 | the store condition needs both strings closed, which never holds after a keyword line, so no entry is ever stored |
| GenerateMo.IdLineRead | wpcleanadmin/languages/generate_mo.php:101-110 | a written `msgid "x"` line is not skipped, takes the msgid branch, and reads back x |
| GenerateMo.IdLineValue | wpcleanadmin/languages/generate_mo.php:110 | `trim(substr($line, 6), '"')` recovers x from `msgid "x"` |
| GenerateMo.StrLineRead | wpcleanadmin/languages/generate_mo.php:101-116 | a written `msgstr "y"` line is not skipped, takes the msgstr branch, and reads back y |
| GenerateMo.StrLineValue | wpcleanadmin/languages/generate_mo.php:116 | `trim(substr($line, 7), '"')` recovers y from `msgstr "y"` |
| GenerateMo.KeywordLine | wpcleanadmin/languages/generate_mo.php:101-105 | a line starting with a letter and ending with a quote is its own trim and is not skipped |
| GenerateMo.IParseFromTwo | wpcleanadmin/languages/generate_mo.php:100-134 | two more lines are two more steps of the corrected parser |
| GenerateMo.IParseFromSnoc | wpcleanadmin/languages/generate_mo.php:100-134 | one more line is one more step of the corrected parser |
| GenerateMo.ISaveRendered | wpcleanadmin/languages/generate_mo.php:128-136 | storing the last open pair completes the assignments of every message |
| GenerateMo.IRenderState | wpcleanadmin/languages/generate_mo.php:100-134 | after a written catalogue, the corrected parser has stored all but the last message and holds the last one open |
| GenerateMo.ParseIntendedRender | wpcleanadmin/languages/generate_mo.php:79-137 | the corrected parser reads a catalogue written one msgid/msgstr pair per message as the assignments of those pairs, in order |
| GenerateMo.ParseRenderAsWritten | wpcleanadmin/languages/generate_mo.php:93-136 | the same catalogue, read by parse_po_file as written, gives the empty array |
| GenerateMo.MoContentPlaceholder | wpcleanadmin/languages/generate_mo.php:140-155 | generate_mo_content ignores its entries and writes 12 bytes (magic, version 0, count 1), which are too short to be a catalogue |
| GenerateMo.MoFileNeverWrites | wpcleanadmin/languages/generate_mo.php:24-76 | generate_mo_file returns false and writes nothing, both as written and behind its guard |
| GenerateMo.GenerateMoFile | wpcleanadmin/languages/generate_mo.php:40-75 | the body of generate_mo_file checks the file, names the .mo file, parses, and writes only when the parse gave entries |
| GenerateMo.MoFileIntended | wpcleanadmin/languages/generate_mo.php:40-75 | with the corrected parser, a catalogue that parses to entries writes the placeholder under the .mo name and changes nothing else |
| GenerateMo.RunScriptFails | wpcleanadmin/languages/generate_mo.php:158-168 | the script's two calls both fail, so it reports failure and leaves the directory as it was |
| GenerateMo.ParsePoFileAsWritten | wpcleanadmin/languages/generate_mo.php:79-91 | parse_po_file with its function_exists guard; ParseAsWrittenEmpty states that it is always empty |
| GenerateMo.GenerateMoFileAsWritten | wpcleanadmin/languages/generate_mo.php:24-76 | generate_mo_file with its function_exists guard; MoFileNeverWrites and RunScriptFails state that it fails and writes nothing |
| PoText.AssignedLookup | wpcleanadmin/translation-debug.php:52-55 | after assigning each message in turn, an original maps to the translation of its last occurrence, and an original that never occurs is absent |
| PoText.AssignedUnique | wpcleanadmin/translation-debug.php:52-55 | the array built by assignment holds each original once |
| TranslationDebug.MatchRestComplete | wpcleanadmin/translation-debug.php:24 | every rest made of a non-empty one-line locale, a dot and po or mo is matched with that locale and type |
| TranslationDebug.MatchRestSound | wpcleanadmin/translation-debug.php:24 | whatever the lazy `(.+?)\.(po\|mo)$` matches is such a rest |
| TranslationDebug.MatchNameIff | wpcleanadmin/translation-debug.php:24-26 | a file name matches with locale l and type t exactly when it is `wp-clean-admin-`, l, a dot and t, with t po or mo and l non-empty and free of newlines |
| TranslationDebug.PutPath | wpcleanadmin/translation-debug.php:27-30 | after the store, the locale holds its old types with this one set to the path |
| TranslationDebug.GetAvailableTranslations | wpcleanadmin/translation-debug.php:16-36 | no directory gives the empty array; otherwise the loop's result is the grouping of the listing |
| TranslationDebug.GroupedPath | wpcleanadmin/translation-debug.php:21-33 | the path kept for locale l and type t is the directory followed by the last listed name that matches with them, and there is none when no name does |
| TranslationDebug.GroupedKeys | wpcleanadmin/translation-debug.php:21-33 | a locale is a key exactly when some listed name matches with it |
| TranslationDebug.PutPathShaped | wpcleanadmin/translation-debug.php:27-30 | storing a po or mo path keeps every locale a table of distinct po/mo keys |
| TranslationDebug.GroupedShaped | wpcleanadmin/translation-debug.php:16-36 | the result has distinct locales, each holding at most one po and one mo path |
| TranslationDebug.SpaceEnd | wpcleanadmin/translation-debug.php:50 | `\s` run: the greedy run of PCRE white space from a position |
| TranslationDebug.QuoteFrom | wpcleanadmin/translation-debug.php:50 | the lazy group's first possible end: the first quote from a position, or none |
| TranslationDebug.StrPart | wpcleanadmin/translation-debug.php:50 | a match of the `\s+msgstr\s+"(.*?)"` part ends after where it starts |
| TranslationDebug.IdPart | wpcleanadmin/translation-debug.php:50 | a match of the lazy msgid group and the rest of the pattern ends after where it is tried |
| TranslationDebug.IdOpen | wpcleanadmin/translation-debug.php:50 | `msgid\s+"`: the text starts with msgid, then white space, then the quote found |
| TranslationDebug.MatchAt | wpcleanadmin/translation-debug.php:50 | a match at the start of the text consumes at least one character |
| TranslationDebug.StrPartSound | wpcleanadmin/translation-debug.php:50 | what the second part consumed is white space, msgstr, white space and a quoted text without quotes |
| TranslationDebug.IdPartSound | wpcleanadmin/translation-debug.php:50 | the msgid group closes at a quote after which the second part matched, and holds the text before that quote |
| TranslationDebug.MatchAtSound | wpcleanadmin/translation-debug.php:50 | whatever the matcher consumed is `msgid`, white space, the quoted msgid, white space, `msgstr`, white space and the quoted msgstr, the groups in their places |
| TranslationDebug.MatchAllRender | wpcleanadmin/translation-debug.php:50 | reading a written catalogue whose texts hold no quotes gives back its messages, in order, duplicates included |
| TranslationDebug.ReadPoFile | wpcleanadmin/translation-debug.php:43-60 | the foreach over the matches leaves the reader's result: nothing for a missing file, otherwise each msgid assigned its msgstr |
| TranslationDebug.ReadPoRender | wpcleanadmin/translation-debug.php:43-60 | in the array read from a written catalogue, each msgid maps to the msgstr of its last occurrence, and absent msgids are absent |
| TranslationDebug.TestRows | wpcleanadmin/translation-debug.php:326-336 | one row per test string, in order, with the translation (or the string without gettext), the class alternating from "alternate", and the highlight exactly when the translation equals the string while the locale is not en_US |
| TranslationDebug.Preview | wpcleanadmin/translation-debug.php:372-378 | the preview shows the first min(n, 20) entries, in order |
| MenuManager.ExplodeMain | wpcleanadmin/includes/class-wpca-menu-manager.php:297-298 | `explode('\|', $slug)[0]` is the text before the first `\|`, or the whole slug |
| MenuManager.ProtectedIff | wpcleanadmin/includes/class-wpca-menu-manager.php:416-422 | a slug is protected exactly when the text before its first `\|` is one of the protected slugs (the loose `in_array` compares strings here); the protected list is at lines 93-97 |
| MenuManager.GetAllMenuItems | wpcleanadmin/includes/class-wpca-menu-manager.php:220-257 | the loops over `$menu` and `$submenu` build exactly the table of top-level items and `parent\|sub` sub-items; nothing when `$menu` is not an array |
| MenuManager.TopItemEntry | wpcleanadmin/includes/class-wpca-menu-manager.php:230-234 | a top-level record is a top item stored under its own slug |
| MenuManager.SubItemEntry | wpcleanadmin/includes/class-wpca-menu-manager.php:242-248 | a sub-item record is a sub item stored under `parent\|sub` |
| MenuManager.AddSubsWellFormed | wpcleanadmin/includes/class-wpca-menu-manager.php:237-251 | adding the sub-items keeps every key once and every record of its kind |
| MenuManager.AllItemsWellFormed | wpcleanadmin/includes/class-wpca-menu-manager.php:220-257 | every key of all_items occurs once, and each record is a top item under its slug or a sub item under `parent\|sub` |
| MenuManager.AddSubsKeys | wpcleanadmin/includes/class-wpca-menu-manager.php:237-251 | the sub-item loop keeps every key already present and adds one for each sub-item with a slug |
| MenuManager.AllItemsKeys | wpcleanadmin/includes/class-wpca-menu-manager.php:226-255 | every top-level item with a slug, and every sub-item of it with a slug, has its entry |
| MenuManager.AddSubsKeepsParent | wpcleanadmin/includes/class-wpca-menu-manager.php:237-251 | the sub-item loop never changes the parent's own entry |
| MenuManager.LastTopWins | wpcleanadmin/includes/class-wpca-menu-manager.php:227-234 | a later top-level item with the same slug overwrites: the last item's title is the one stored |
| MenuManager.CalculateHiddenItems | wpcleanadmin/includes/class-wpca-menu-manager.php:280-307 | the loop over menu_toggles gives the specification's hidden list, and nothing without a menu_toggles array |
| MenuManager.HiddenIff | wpcleanadmin/includes/class-wpca-menu-manager.php:288-304 | a slug is hidden exactly when some toggle under that slug has state 0, names an item of all_items and is not protected |
| MenuManager.HiddenAppend | wpcleanadmin/includes/class-wpca-menu-manager.php:288-304 | the hidden list follows toggle order |
| MenuManager.HiddenSound | wpcleanadmin/includes/class-wpca-menu-manager.php:288-304 | every hidden slug is a non-empty string, a key of all_items, not protected, and toggled to the integer 0 |
| MenuManager.HiddenDistinct | wpcleanadmin/includes/class-wpca-menu-manager.php:288-304 | no slug is hidden twice |
| MenuManager.Manager.GetPluginOptions | wpcleanadmin/includes/class-wpca-menu-manager.php:206-212 | the stored option is read once and then served from the cache |
| MenuManager.Manager.GetHiddenMenuItems | wpcleanadmin/includes/class-wpca-menu-manager.php:264-271 | the hidden list is computed once from the options and the menu, then served from the cache |
| MenuManager.Manager.ClearCache | wpcleanadmin/includes/class-wpca-menu-manager.php:481-484 | both caches are dropped |
| MenuManager.Manager.GetMenuStatistics | wpcleanadmin/includes/class-wpca-menu-manager.php:750-790 | the statistics of the current menu and the cached hidden list, computing the hidden list if it is not cached |
| MenuManager.CountStatistics | wpcleanadmin/includes/class-wpca-menu-manager.php:761-789 | the loop's counters are the statistics of the table and the hidden list |
| MenuManager.CountTopBound | wpcleanadmin/includes/class-wpca-menu-manager.php:761-776 | each kind's hidden count is at most its count, and the protected count at most the total |
| MenuManager.InHiddenPlain | wpcleanadmin/includes/class-wpca-menu-manager.php:764-769 | for slugs that are not numeric strings, the loose `in_array` is plain membership |
| MenuManager.CountHiddenIsCountIn | wpcleanadmin/includes/class-wpca-menu-manager.php:761-772 | the two hidden counters together count the keys that are in the hidden list |
| MenuManager.CountInAll | wpcleanadmin/includes/class-wpca-menu-manager.php:761-772 | distinct hidden slugs that are all keys of the table are counted once each |
| MenuManager.StatisticsSums | wpcleanadmin/includes/class-wpca-menu-manager.php:779-788 | top_level + submenu = total, visible = total - hidden, and the hidden part of each kind is bounded by that kind |
| MenuManager.StatisticsHidden | wpcleanadmin/includes/class-wpca-menu-manager.php:750-790 | for the hidden list the manager computes, hidden_top_level + hidden_submenu = hidden, so visible is never negative |
| MenuManager.PipeParts | wpcleanadmin/includes/class-wpca-menu-manager.php:393 | `list($parent, $child) = explode('\|', $slug)` takes the text before the first `\|` and the text between the first and the second; the same split is at line 536 |
| MenuManager.AdminBarSub | wpcleanadmin/includes/class-wpca-menu-manager.php:392-396 | a slug `p\|c` gives the ids `edit-p-c` and `p-c` |
| MenuManager.AdminBarTop | wpcleanadmin/includes/class-wpca-menu-manager.php:398-405 | a top-level slug without `.php` gives `toplevel_page_`, `menu-` and the slug itself |
| MenuManager.PhpOnlyAtEnd | wpcleanadmin/includes/class-wpca-menu-manager.php:401 | in `b.php`, with no `.php` inside b, the only `.php` is the suffix |
| MenuManager.AdminBarTopPhp | wpcleanadmin/includes/class-wpca-menu-manager.php:398-405 | a top-level `b.php` gives the three ids built on b |
| MenuManager.CssSelectors | wpcleanadmin/includes/class-wpca-menu-manager.php:528-553 | exactly three selectors for any slug |
| MenuManager.CssSelectorsSub | wpcleanadmin/includes/class-wpca-menu-manager.php:535-542 | for `p\|c` every selector targets the submenu link whose href ends in the escaped child |
| MenuManager.GenerateMenuHideCss | wpcleanadmin/includes/class-wpca-menu-manager.php:492-520 | the loop's CSS is one rule block per hidden slug, in order |
| MenuManager.HideCssEmpty | wpcleanadmin/includes/class-wpca-menu-manager.php:493-495 | the CSS is empty exactly when nothing is hidden |
| MenuManager.HideCssAppend | wpcleanadmin/includes/class-wpca-menu-manager.php:499-517 | the CSS of two lists is the CSS of the first followed by that of the second |
| MenuManager.HideCssOne | wpcleanadmin/includes/class-wpca-menu-manager.php:500-516 | one hidden slug gives its three selectors joined by a comma and newline, then the four hiding rules |
| MenuManager.Manager.constructor | wpcleanadmin/includes/class-wpca-menu-manager.php:112-141 | both caches start empty |
| MenuManager.NumericSlugCountedTwice | wpcleanadmin/includes/class-wpca-menu-manager.php:750-790 | a top-level item under key 10 and one under "010", with "010" hidden, count as two hidden top-level items against one hidden slug, because the loose `in_array` equates the two |
| MenuManager.ZeroTenLoose | wpcleanadmin/includes/class-wpca-menu-manager.php:750-790 | PHP 8's loose comparison equates 10 with "010", while "010" stays a string array key |
| MenuManager.ZeroTenHidden | wpcleanadmin/includes/class-wpca-menu-manager.php:750-790 | both the key 10 and the key "010" pass the loose `in_array` against the hidden list ["010"] |
| MenuCustomizer.FirstMatch | wpcleanadmin/includes/class-wpca-menu-customizer.php:77-81 | the position of the first item whose field 2 is identical to the slug, and -1 exactly when there is none |
| MenuCustomizer.FindFirst | wpcleanadmin/includes/class-wpca-menu-customizer.php:77-81 | the inner `foreach ... break` search stops at that first position |
| MenuCustomizer.FirstItem | wpcleanadmin/includes/class-wpca-menu-customizer.php:77-81 | the same search over the keyed menu array |
| MenuCustomizer.RemoveFirstNone | wpcleanadmin/includes/class-wpca-menu-customizer.php:75-82 | without an item with the slug, hiding changes nothing |
| MenuCustomizer.RemoveFirstSome | wpcleanadmin/includes/class-wpca-menu-customizer.php:75-82 | hiding removes the first item with the slug and keeps every other item in place |
| MenuCustomizer.SetFirstNone | wpcleanadmin/includes/class-wpca-menu-customizer.php:86-113 | without an item with the slug, an override changes nothing |
| MenuCustomizer.SetFirstSome | wpcleanadmin/includes/class-wpca-menu-customizer.php:86-113 | an override writes only the first item with the slug and leaves every other item as it was |
| MenuCustomizer.SetFirstField | wpcleanadmin/includes/class-wpca-menu-customizer.php:89-109 | in the item it writes, the override sets exactly the one field and keeps the others |
| MenuCustomizer.DigitsFrom | wpcleanadmin/includes/class-wpca-menu-customizer.php:106 | the end of the run of digits from a position, as `is_numeric` scans it |
| MenuCustomizer.IntNumericIsNumeric | wpcleanadmin/includes/class-wpca-menu-customizer.php:106 | every integer-like string passes `is_numeric` |
| MenuCustomizer.LetterNotNumeric | wpcleanadmin/includes/class-wpca-menu-customizer.php:106 | a string with a letter before its digits does not pass `is_numeric`, so that position is not applied |
| MenuCustomizer.PickRestInOrder | wpcleanadmin/includes/class-wpca-menu-customizer.php:180-182 | the items the order list does not take keep their original relative order |
| MenuCustomizer.PickPermutes | wpcleanadmin/includes/class-wpca-menu-customizer.php:169-177 | the taken items and the remaining ones together are the original items, and at most one item is taken per order slug |
| MenuCustomizer.ReorderPermutes | wpcleanadmin/includes/class-wpca-menu-customizer.php:163-186 | apply_menu_order returns a permutation of the menu: every item exactly once |
| MenuCustomizer.PickedNamed | wpcleanadmin/includes/class-wpca-menu-customizer.php:169-177 | every item placed first carries a slug of the order list |
| MenuCustomizer.PickIgnoresUnknown | wpcleanadmin/includes/class-wpca-menu-customizer.php:169-177 | a slug in the order list that no item has is ignored |
| MenuCustomizer.ReorderEmpty | wpcleanadmin/includes/class-wpca-menu-customizer.php:163-186 | an empty order list keeps the menu as it is |
| MenuCustomizer.HideIn | wpcleanadmin/includes/class-wpca-menu-customizer.php:77-129 | the hiding loop unsets the first item with the slug |
| MenuCustomizer.SetIn | wpcleanadmin/includes/class-wpca-menu-customizer.php:87-138 | an override loop writes one field of the first item with the slug |
| MenuCustomizer.CustomizeSubItem | wpcleanadmin/includes/class-wpca-menu-customizer.php:121-140 | one submenu entry's settings: hide, then retitle, on the parent's submenu list |
| MenuCustomizer.AdminMenu.HideItem | wpcleanadmin/includes/class-wpca-menu-customizer.php:75-82 | `$menu` loses its first item with the slug; `$submenu` is unchanged |
| MenuCustomizer.AdminMenu.SetItemField | wpcleanadmin/includes/class-wpca-menu-customizer.php:86-113 | `$menu`'s first item with the slug gets the one field; `$submenu` is unchanged |
| MenuCustomizer.AdminMenu.CustomizeItem | wpcleanadmin/includes/class-wpca-menu-customizer.php:73-114 | one `menu_items` entry: hide, then title (field 0), icon (field 6) and numeric position (field 5), each only when set and non-empty |
| MenuCustomizer.AdminMenu.CustomizeSubmenu | wpcleanadmin/includes/class-wpca-menu-customizer.php:119-142 | one `submenu_items` entry changes only `$submenu[$parent]`, and only when the parent is set |
| MenuCustomizer.AdminMenu.ApplyMenuOrder | wpcleanadmin/includes/class-wpca-menu-customizer.php:163-186 | `$menu` becomes the items the order list takes, in list order, then the rest in their old order |
| MenuCustomizer.AdminMenu.CustomizeItems | wpcleanadmin/includes/class-wpca-menu-customizer.php:72-115 | the `menu_items` loop applies each entry in turn to `$menu` |
| MenuCustomizer.AdminMenu.CustomizeSubmenus | wpcleanadmin/includes/class-wpca-menu-customizer.php:118-144 | the `submenu_items` loop applies each entry in turn to `$submenu` |
| MenuCustomizer.AdminMenu.CustomizeAdminMenu | wpcleanadmin/includes/class-wpca-menu-customizer.php:65-154 | customize_admin_menu leaves the menu and the submenu the specification describes: the item settings, the submenu settings, then the order when it is non-empty |
| MenuCustomizer.GetSettingsLookup | wpcleanadmin/includes/class-wpca-menu-customizer.php:237-250 | stored values override the defaults, missing keys keep them, and enabled, menu_items, submenu_items and admin_bar_items are always present |
| MenuCustomizer.AdminMenu.constructor | wpcleanadmin/includes/class-wpca-menu-customizer.php:41-66 | the customizer works on the given global menu and submenu |
| CleanAdminMenu.SanitizeArray | wpcleanadmin/includes/admin/menu-manager.php:45-47 | arrays pass through unchanged; anything else becomes the empty array |
| CleanAdminMenu.FirstWithSlug | wpcleanadmin/includes/admin/menu-manager.php:70-75 | the position of the first item whose slug is identical to the order slug, and -1 exactly when there is none |
| CleanAdminMenu.FindItem | wpcleanadmin/includes/admin/menu-manager.php:70-75 | the inner search stops at that first position |
| CleanAdminMenu.AdminMenuModule.RemoveHidden | wpcleanadmin/includes/admin/menu-manager.php:54-63 | one remove_menu_page call per hidden menu, then one remove_submenu_page call per hidden submenu, in order; `$menu` ends as the menu with, for each hidden slug in turn, its first item unset |
| CleanAdminMenu.AdminMenuModule.RemovePage | wpcleanadmin/includes/admin/menu-manager.php:55-57 | one remove_menu_page call: the first item whose slug is identical to the given one is unset and the call is recorded |
| CleanAdminMenu.RemoveFirstAt | wpcleanadmin/includes/admin/menu-manager.php:55-57 | remove_menu_page unsets exactly the item the first-match search finds, keeping the items before and after it in order, and changes nothing when no item has the slug |
| CleanAdminMenu.RemovePagesIsWithout | wpcleanadmin/includes/admin/menu-manager.php:55-57 | when no two items share a slug, the removal loop leaves exactly the items whose slug is not on the hidden list, in their order |
| CleanAdminMenu.HiddenPageStaysRemoved | wpcleanadmin/includes/admin/menu-manager.php:49-79 | when no two items share a slug, no item of the final `$menu` has a hidden slug, whether or not the order option rebuilds it |
| CleanAdminMenu.WithoutIn | wpcleanadmin/includes/admin/menu-manager.php:55-57 | every item left after filtering by a slug list is an item of the menu whose slug is not on the list |
| CleanAdminMenu.WithoutDistinct | wpcleanadmin/includes/admin/menu-manager.php:55-57 | removing pages from a menu whose slugs are distinct leaves them distinct |
| CleanAdminMenu.AdminMenuModule.ModifyAdminMenu | wpcleanadmin/includes/admin/menu-manager.php:49-79 | the removal calls are made in order; `$menu` first loses the hidden pages, and then, unless the order option is empty, is rebuilt from that reduced menu in order-list order |
| CleanAdminMenu.OrderMenu | wpcleanadmin/includes/admin/menu-manager.php:68-76 | the rebuilt menu is each order slug's first item, in order-list order |
| CleanAdminMenu.OrderedLength | wpcleanadmin/includes/admin/menu-manager.php:67-77 | the new menu is never longer than the order list |
| CleanAdminMenu.OrderedItems | wpcleanadmin/includes/admin/menu-manager.php:69-76 | each item of the new menu is the first menu item for some order slug, so items named by no order slug are dropped |
| CleanAdminMenu.OrderedAppend | wpcleanadmin/includes/admin/menu-manager.php:69-76 | an order slug that has an item adds that item at the end; one that has none adds nothing |
| CleanAdminMenu.OrderedCount | wpcleanadmin/includes/admin/menu-manager.php:69-76 | the new menu has one item per order slug that has an item |
| CleanAdminMenu.SubmenuCallSplit | wpcleanadmin/includes/admin/menu-manager.php:60-62 | an entry `p\|c` removes page c under p, and an entry without `\|` passes a null child |
| CleanAdminMenu.AdminMenuModule.constructor | wpcleanadmin/includes/admin/menu-manager.php:20-67 | the module works on the given global menu and has made no calls yet |
| CleanAdminMenu.Ordered | wpcleanadmin/includes/admin/menu-manager.php:68-76 | the rebuilt menu: for each order slug in turn its first item, if any; OrderedLength, OrderedItems, OrderedAppend and OrderedCount state its properties |
| CleanAdminMenu.RemoveFirst | wpcleanadmin/includes/admin/menu-manager.php:55-57 | what one remove_menu_page call does to `$menu`: the first item with that slug is dropped and the rest keep their order; RemoveFirstAt and RemoveFirstIsWithout state it |
| CleanAdminMenu.RemovePages | wpcleanadmin/includes/admin/menu-manager.php:55-57 | `$menu` after remove_menu_page for each hidden slug in turn; RemovePagesIsWithout states what is left |
| CleanAdminMenu.Without | wpcleanadmin/includes/admin/menu-manager.php:55-57 | the reference reading of the removals: the items whose slug is not hidden, in menu order; WithoutIn and WithoutDistinct state its properties |
| CleanAdminMenu.Modified | wpcleanadmin/includes/admin/menu-manager.php:49-79 | `$menu` at the end of modify_admin_menu: the removals, then the reorder when the order option is not empty; HiddenPageStaysRemoved states that no hidden page comes back |
| WpcaCache.BackendOf | wpcleanadmin/includes/class-wpca-cache.php:110-169 | the `switch ($type)` of get, set and delete: "database" and "file" choose their backends and every other type falls back to memory |
| WpcaCache.Read | wpcleanadmin/includes/class-wpca-cache.php:202-216 | a missing key, or one whose deadline is before now, reads as the default |
| WpcaCache.Pruned | wpcleanadmin/includes/class-wpca-cache.php:205-210 | get removes the key's entry when it has expired and keeps every other entry |
| WpcaCache.Lifetime | wpcleanadmin/includes/class-wpca-cache.php:136-138 | a set's own expiration is used when positive, the configured one otherwise |
| WpcaCache.Performance | wpcleanadmin/includes/class-wpca-cache.php:81 | the performance section is read only when it is set |
| WpcaCache.LoadedEnabled | wpcleanadmin/includes/class-wpca-cache.php:82-84 | cache_enabled keeps its value when the setting is not set |
| WpcaCache.LoadedExpiration | wpcleanadmin/includes/class-wpca-cache.php:86-94 | the loaded expiration is always positive: a missing or non-positive value gives 3600 |
| WpcaCache.Cache.constructor | wpcleanadmin/includes/class-wpca-cache.php:36-73 | an empty memory store, then load_cache_settings over the defaults (enabled, 3600) |
| WpcaCache.Cache.LoadCacheSettings | wpcleanadmin/includes/class-wpca-cache.php:78-95 | the two settings are loaded as above and the store is unchanged |
| WpcaCache.Cache.Get | wpcleanadmin/includes/class-wpca-cache.php:105-120 | disabled: the default and no change; memory: the stored value while its deadline holds, else the default with the expired entry removed; database or file: handed to that backend; the memory read is at lines 202-216 |
| WpcaCache.Cache.Set | wpcleanadmin/includes/class-wpca-cache.php:131-150 | disabled: false and no change; memory: true with the value stored under deadline now + lifetime; database or file: handed to that backend; the memory write is at lines 226-233 |
| WpcaCache.Cache.Delete | wpcleanadmin/includes/class-wpca-cache.php:159-170 | even when disabled, memory delete returns whether the key was present and removes it; the memory delete is at lines 241-248 |
| WpcaCache.Cache.Clear | wpcleanadmin/includes/class-wpca-cache.php:178-193 | "memory" empties the store and returns true, "all" empties it and goes on to the database, "database" and "file" leave memory alone, any other type returns false with no change; the memory clear is at lines 255-258 |
| WpcaCache.Cache.SetCacheEnabled | wpcleanadmin/includes/class-wpca-cache.php:504-506 | stores the flag and nothing else |
| WpcaCache.Cache.GetCacheEnabled | wpcleanadmin/includes/class-wpca-cache.php:513-515 | returns the flag |
| WpcaCache.Cache.SetCacheExpiration | wpcleanadmin/includes/class-wpca-cache.php:522-524 | stores the expiration, even one that is not positive, and nothing else |
| WpcaCache.Cache.GetCacheExpiration | wpcleanadmin/includes/class-wpca-cache.php:531-533 | returns the expiration |
| WpcaCache.Cache.SetThenGet | wpcleanadmin/includes/class-wpca-cache.php:131-150 | with the cache enabled, the memory backend and a lifetime that is not negative, set then get of the same key at the same time gives the value back; the memory read and write are at lines 202-233 |
| WpcaCache.ReadAfterWrite | wpcleanadmin/includes/class-wpca-cache.php:202-233 | after a write, the key reads as the value while its deadline holds, and every other key reads as before |
| WpcaCache.ReadAfterPrune | wpcleanadmin/includes/class-wpca-cache.php:205-210 | removing an expired entry does not change what any read returns, and a fresh entry is not removed |
| WpcaCache.ReadAfterDelete | wpcleanadmin/includes/class-wpca-cache.php:241-248 | a deleted key reads as the default |
| ExtensionApi.FieldOf | wpcleanadmin/includes/class-wpca-extension-api.php:124-125 | a missing field reads as null |
| ExtensionApi.CheckRequired | wpcleanadmin/includes/class-wpca-extension-api.php:109-115 | the loop over the required keys succeeds exactly when every one is set and not empty |
| ExtensionApi.WithActive | wpcleanadmin/includes/class-wpca-extension-api.php:237-245 | the filtered view is never larger than the registry |
| ExtensionApi.Info | wpcleanadmin/includes/class-wpca-extension-api.php:488-505 | an unknown id gives the empty array; a known one gives the seven public fields, with author and description defaulting to the empty string |
| ExtensionApi.SliceArgs | wpcleanadmin/includes/class-wpca-extension-api.php:333-334 | `array_slice($args, 0, $n)` is a prefix of the arguments, of length n when n is not negative and not above their number |
| ExtensionApi.ExtensionRegistry.constructor | wpcleanadmin/includes/class-wpca-extension-api.php:68-80 | no extensions, hooks or filters |
| ExtensionApi.ExtensionRegistry.RegisterExtension | wpcleanadmin/includes/class-wpca-extension-api.php:104-132 | a record missing id, name, version or file, or whose sanitised id is already registered, is refused with no change; otherwise it is stored inactive with its registration time, and hooks and filters are unchanged; the new store is AfterRegister of the old one |
| ExtensionApi.ExtensionRegistry.LoadExtensions | wpcleanadmin/includes/class-wpca-extension-api.php:88-97 | the store afterwards is the old store with register_extension applied to each returned record in list order (the fold RegisterAll), and hooks and filters are unchanged |
| ExtensionApi.RegisterAllKeeps | wpcleanadmin/includes/class-wpca-extension-api.php:88-97 | loading extensions never changes an extension that was already registered |
| ExtensionApi.LoadRegistersEach | wpcleanadmin/includes/class-wpca-extension-api.php:88-97 | after loading, every returned record that has id, name, version and file has its sanitised id registered |
| ExtensionApi.FirstRecordStored | wpcleanadmin/includes/class-wpca-extension-api.php:88-126 | when the first returned record is new and complete, it is the record stored under its id (inactive, with its registration time); later records with the same id are ignored |
| ExtensionApi.AfterRegisterKeeps | wpcleanadmin/includes/class-wpca-extension-api.php:119-126 | a registration never changes an extension that is already set |
| ExtensionApi.AfterRegisterSets | wpcleanadmin/includes/class-wpca-extension-api.php:111-126 | after registering a record with the required fields its sanitised id is set, whether it was new or already there |
| ExtensionApi.ExtensionRegistry.ActivateExtension | wpcleanadmin/includes/class-wpca-extension-api.php:168-194 | false with no change for an unknown id; true with no change when already active; otherwise the record becomes active with its activation time |
| ExtensionApi.ExtensionRegistry.DeactivateExtension | wpcleanadmin/includes/class-wpca-extension-api.php:202-223 | false with no change for an unknown id; true with no change when already inactive; otherwise the record becomes inactive and loses activated_at |
| ExtensionApi.ExtensionRegistry.UnregisterExtension | wpcleanadmin/includes/class-wpca-extension-api.php:140-160 | false with no change for an unknown id; otherwise the store is the old store with exactly that sanitised id unset (the deactivation on the way writes to the same key, since sanitize_key is idempotent), so every other extension is unchanged and the removed one is neither registered nor active |
| ExtensionApi.ExtensionRegistry.GetExtensions | wpcleanadmin/includes/class-wpca-extension-api.php:231-247 | get_extensions returns the view for its status |
| ExtensionApi.ExtensionRegistry.GetExtension | wpcleanadmin/includes/class-wpca-extension-api.php:255-259 | the record under the sanitised id, and null exactly when there is none |
| ExtensionApi.ExtensionRegistry.IsExtensionActive | wpcleanadmin/includes/class-wpca-extension-api.php:512-517 | true exactly when the extension is registered and its active field is truthy |
| ExtensionApi.ExtensionRegistry.GetExtensionCount | wpcleanadmin/includes/class-wpca-extension-api.php:524-527 | the size of the view for the status |
| ExtensionApi.ExtensionRegistry.ExportExtensions | wpcleanadmin/includes/class-wpca-extension-api.php:478-545 | the export holds the registry and API version 1.0.0, total_count is the size of the "all" view and active_count, never larger, that of the "active" view |
| ExtensionApi.ExtensionRegistry.AddHook | wpcleanadmin/includes/class-wpca-extension-api.php:270-286 | succeeds and appends the registration to the hook's list, nothing else changes |
| ExtensionApi.ExtensionRegistry.AddFilter | wpcleanadmin/includes/class-wpca-extension-api.php:297-313 | succeeds and appends the registration to the filter's list, nothing else changes |
| ExtensionApi.ExtensionRegistry.ExecuteHook | wpcleanadmin/includes/class-wpca-extension-api.php:322-341 | with no hooks the argument comes back; otherwise each callback gets the first accepted_args arguments and a non-null result replaces the argument |
| ExtensionApi.ExtensionRegistry.ApplyFilter | wpcleanadmin/includes/class-wpca-extension-api.php:350-363 | with no filters the value comes back; otherwise the callbacks are applied to it left to right in the order they were added |
| ExtensionApi.MenuItemToAdd | wpcleanadmin/includes/class-wpca-extension-api.php:371-401 | a menu item is accepted exactly when title, slug and callback are set and non-empty |
| ExtensionApi.SectionToAdd | wpcleanadmin/includes/class-wpca-extension-api.php:410-434 | a settings section is accepted exactly when id, title and callback are set and non-empty |
| ExtensionApi.FieldToAdd | wpcleanadmin/includes/class-wpca-extension-api.php:443-470 | a settings field is accepted exactly when id, title, callback and section are set and non-empty |
| ExtensionApi.RegisteredInactive | wpcleanadmin/includes/class-wpca-extension-api.php:122-125 | a newly registered extension is present and inactive, and no other entry changes |
| ExtensionApi.ActivationFields | wpcleanadmin/includes/class-wpca-extension-api.php:185-217 | activation sets active and activated_at; deactivation clears active and removes activated_at |
| ExtensionApi.ActivationStored | wpcleanadmin/includes/class-wpca-extension-api.php:168-223 | after activation the stored entry is active, so a second activation changes nothing; after deactivation it is inactive, so a second deactivation changes nothing |
| ExtensionApi.ViewsPartition | wpcleanadmin/includes/class-wpca-extension-api.php:231-247 | the "active" and "inactive" views together are exactly the "all" view |
| ExtensionApi.ViewOther | wpcleanadmin/includes/class-wpca-extension-api.php:231-247 | any other status gives an empty result |
| ExtensionApi.WithActiveSound | wpcleanadmin/includes/class-wpca-extension-api.php:238-244 | every entry of a filtered view is an entry of the registry in that state |
| ExtensionApi.FilterChainSplit | wpcleanadmin/includes/class-wpca-extension-api.php:355-360 | a filter chain over two lists is the second applied to the first's result |
| ExtensionApi.FilterChainOne | wpcleanadmin/includes/class-wpca-extension-api.php:355-360 | with one callback, the filter is that callback |
| ExtensionApi.HookAllNull | wpcleanadmin/includes/class-wpca-extension-api.php:330-338 | hooks whose callbacks all return null leave the argument as it was |
| ExtensionApi.FilterAddedRunsLast | wpcleanadmin/includes/class-wpca-extension-api.php:297-363 | a newly added filter runs last, on the result of the earlier ones |
| ExtensionApi.View | wpcleanadmin/includes/class-wpca-extension-api.php:231-247 | get_extensions($status): all, the active ones, the inactive ones, or nothing for another status; ViewsPartition and ViewOther state its properties |
| ExtensionApi.FilterChain | wpcleanadmin/includes/class-wpca-extension-api.php:355-360 | apply_filter's loop, each callback receiving the previous result; FilterChainSplit, FilterChainOne and FilterAddedRunsLast state its properties |
| ExtensionApi.HookResult | wpcleanadmin/includes/class-wpca-extension-api.php:327-338 | execute_hook's loop, the last non-null callback result winning over the first argument; HookAllNull states its property |
| ExtensionApi.AfterRegister | wpcleanadmin/includes/class-wpca-extension-api.php:104-132 | the store after one register_extension call, whether it succeeds or not; AfterRegisterKeeps and AfterRegisterSets state its properties |
| ExtensionApi.RegisterAll | wpcleanadmin/includes/class-wpca-extension-api.php:88-96 | the store after register_extension for each record in turn; RegisterAllKeeps, LoadRegistersEach and FirstRecordStored state its properties |
| ErrorHandler.Rank | wpcleanadmin/includes/class-wpca-error-handler.php:27-34 | a name has a rank exactly when it is one of the six levels, ranked 0 (debug) to 5 (critical) |
| ErrorHandler.LevelOfErrno | wpcleanadmin/includes/class-wpca-error-handler.php:166-192 | the errno map is total and always names a level |
| ErrorHandler.LoadedLevel | wpcleanadmin/includes/class-wpca-error-handler.php:82-90 | the loaded log_level is the stored one only when that names a level, otherwise the current one |
| ErrorHandler.Handler.constructor | wpcleanadmin/includes/class-wpca-error-handler.php:41-75 | starts at "notice", then loads the stored level, with nothing logged |
| ErrorHandler.Handler.ShouldLogNow | wpcleanadmin/includes/class-wpca-error-handler.php:200-205 | should_log against the handler's current level |
| ErrorHandler.Handler.HandleError | wpcleanadmin/includes/class-wpca-error-handler.php:101-121 | the error is logged at its errno's level exactly when that level passes, and the answer is always false |
| ErrorHandler.Handler.HandleException | wpcleanadmin/includes/class-wpca-error-handler.php:128-148 | an exception is always logged at "error", whatever the threshold |
| ErrorHandler.Handler.LogMessage | wpcleanadmin/includes/class-wpca-error-handler.php:278-297 | a message is always logged once; an empty file or a zero line is taken from the caller's frame |
| ErrorHandler.Handler.Shutdown | wpcleanadmin/includes/class-wpca-error-handler.php:153-158 | the last error, if any, goes through error_handler; no last error logs nothing |
| ErrorHandler.Handler.SetLogLevel | wpcleanadmin/includes/class-wpca-error-handler.php:304-308 | a level name is stored, any other name is ignored |
| ErrorHandler.Handler.GetLogLevel | wpcleanadmin/includes/class-wpca-error-handler.php:315-317 | the current level, which is always one of the six level names |
| ErrorHandler.ShouldLogRanks | wpcleanadmin/includes/class-wpca-error-handler.php:200-205 | should_log holds exactly when the message's rank, 0 for an unknown name, is at least the threshold's |
| ErrorHandler.CriticalAlwaysLogged | wpcleanadmin/includes/class-wpca-error-handler.php:200-205 | "critical" passes every threshold, known or not; the levels are at lines 27-34 |
| ErrorHandler.DebugOnlyAtDebug | wpcleanadmin/includes/class-wpca-error-handler.php:200-205 | "debug", and any unknown level, passes only the "debug" threshold; the levels are at lines 27-34 |
| ErrorHandler.ErrnoDefault | wpcleanadmin/includes/class-wpca-error-handler.php:166-192 | an errno the map does not list maps to "debug", and a listed one never does |
| ErrorHandler.ShouldLogMonotone | wpcleanadmin/includes/class-wpca-error-handler.php:200-205 | raising the threshold never lets more messages through |
| WpcaSettings.Layout | wpcleanadmin/includes/class-wpca-settings.php:59-70 | ten entries, in the order both the defaults and the validated array use; validate_settings builds the same order at lines 262-288 |
| WpcaSettings.Defaults | wpcleanadmin/includes/class-wpca-settings.php:58-71 | ten default settings |
| WpcaSettings.ArrayField | wpcleanadmin/includes/class-wpca-settings.php:268-277 | an array-valued field of the validated settings is always an array |
| WpcaSettings.Validate | wpcleanadmin/includes/class-wpca-settings.php:261-289 | validate_settings writes ten settings |
| WpcaSettings.Setting | wpcleanadmin/includes/class-wpca-settings.php:116-118 | get_setting of a key that is not there is the default |
| WpcaSettings.LoadSettingsAsWritten | wpcleanadmin/includes/class-wpca-settings.php:78-97 | as written: a missing or non-array option loads the defaults and saves them; otherwise the option is merged over the defaults, and its version is replaced and the result saved only when the version is set and not the current one |
| WpcaSettings.LoadSettings | wpcleanadmin/includes/class-wpca-settings.php:78-97 | corrected version check: a missing or non-array option loads the defaults and saves them; otherwise the option is merged over the defaults, the version is always the current one, and the result is saved exactly when the merged version was not already current (a null version included) |
| WpcaSettings.LoadedAsWritten | wpcleanadmin/includes/class-wpca-settings.php:78-97 | load_settings as written; LoadedOverlay, LoadedAsWrittenKeepsNull and LoadedAsWrittenNullVersion state what it loads |
| WpcaSettings.Loaded | wpcleanadmin/includes/class-wpca-settings.php:78-97 | load_settings with the version always current, as the comment at line 89 says; LoadedOverlay and LoadedVersion state what it loads |
| WpcaSettings.SettingsStore.constructor | wpcleanadmin/includes/class-wpca-settings.php:38-42 | the defaults, then the corrected load_settings over the stored option |
| WpcaSettings.SettingsStore.GetSetting | wpcleanadmin/includes/class-wpca-settings.php:116-118 | get_setting on the loaded settings |
| WpcaSettings.SettingsStore.SetSetting | wpcleanadmin/includes/class-wpca-settings.php:127-130 | the key is set and the whole settings array is saved |
| WpcaSettings.SettingsStore.GetAllSettings | wpcleanadmin/includes/class-wpca-settings.php:137-139 | the loaded settings |
| WpcaSettings.SettingsStore.ResetSettings | wpcleanadmin/includes/class-wpca-settings.php:146-149 | the settings become the defaults and are saved |
| WpcaSettings.LayoutKeys | wpcleanadmin/includes/class-wpca-settings.php:59-70 | the ten keys are distinct and in the documented order, whatever the values |
| WpcaSettings.ValidateKeys | wpcleanadmin/includes/class-wpca-settings.php:261-289 | the validated array has exactly the ten default keys, in the defaults' order, and version is WPCA_VERSION (1.7.13, wpcleanadmin/wp-clean-admin.php line 24) |
| WpcaSettings.ValidateArrays | wpcleanadmin/includes/class-wpca-settings.php:268-277 | menu_order, submenu_order, menu_toggles and dashboard_widgets are copied when they are arrays and [] otherwise |
| WpcaSettings.ValidateLoginStyle | wpcleanadmin/includes/class-wpca-settings.php:280 | login_style is sanitised when it is a string and "default" otherwise |
| WpcaSettings.ValidateFlags | wpcleanadmin/includes/class-wpca-settings.php:283-286 | the four flags are the `(int)` cast of the input when set, otherwise 0 |
| WpcaSettings.FlagFieldValue | wpcleanadmin/includes/class-wpca-settings.php:283-286 | a set flag is `(int)` of its value; an unset one, or any flag of a non-array input, is 0 |
| WpcaSettings.DefaultsKeys | wpcleanadmin/includes/class-wpca-settings.php:58-71 | the defaults have ten distinct keys and carry the current version |
| WpcaSettings.LoadedOverlay | wpcleanadmin/includes/class-wpca-settings.php:86-88 | every key other than version keeps the stored value when the option has it and the default otherwise |
| WpcaSettings.LoadedVersion | wpcleanadmin/includes/class-wpca-settings.php:89-93 | when the version is always brought up to date, as the comment there says, the loaded version is the current one |
| WpcaSettings.LoadedAsWrittenKeepsNull | wpcleanadmin/includes/class-wpca-settings.php:89-93 | as written, a stored version of null survives the load, because isset treats null as unset |
| WpcaSettings.LoadedAsWrittenNullVersion | wpcleanadmin/includes/class-wpca-settings.php:89-93 | the stored option `['version' => null]` over the real defaults is such an input |
| WpcaSettings.SetThenGet | wpcleanadmin/includes/class-wpca-settings.php:116-130 | reading a key back after setting it gives the value, or the default when the value is null; other keys read as before |
| WpcaSettings.SettingAt | wpcleanadmin/includes/class-wpca-settings.php:116-149 | get_setting finds the entry at any position of an array with distinct keys, so after a reset it reads the defaults |
| SettingsValidation.Flags | wpcleanadmin/includes/modules/admin/settings/class-wpca-settings-validation.php:39-91 | each listed flag is 1 when the input section sets it and 0 otherwise |
| SettingsValidation.SectionsLookup | wpcleanadmin/includes/modules/admin/settings/class-wpca-settings-validation.php:31-95 | a listed section appears in the output exactly when the input sets it, holding its validated flags and copies |
| SettingsValidation.ValidateSections | wpcleanadmin/includes/modules/admin/settings/class-wpca-settings-validation.php:31-95 | general, menu, performance and security are kept exactly when present, and every other section is dropped |
| SettingsValidation.FlagsBinary | wpcleanadmin/includes/modules/admin/settings/class-wpca-settings-validation.php:39-91 | every flag is 0 or 1, and 1 exactly when the input section sets it |
| SettingsValidation.CopiesLookup | wpcleanadmin/includes/modules/admin/settings/class-wpca-settings-validation.php:56-63 | a copied field is present, with the input's value, exactly when the input section sets it |
| SettingsValidation.CopiesKeys | wpcleanadmin/includes/modules/admin/settings/class-wpca-settings-validation.php:56-63 | every copied entry comes from a field the input section sets |
| SettingsValidation.MenuCopies | wpcleanadmin/includes/modules/admin/settings/class-wpca-settings-validation.php:56-63 | menu_items and menu_order are copied verbatim when set and omitted otherwise |
| SettingsValidation.Validate | wpcleanadmin/includes/modules/admin/settings/class-wpca-settings-validation.php:31-95 | validate: the validated sections in the listed order; ValidateSections and SectionsLookup state which sections appear and what they hold |
| DatabaseSettings.Flag | wpcleanadmin/includes/class-wpca-database-settings.php:175-185 | a flag is an integer: 0 when unset, the field itself when it already is one |
| DatabaseSettings.FlagEntries | wpcleanadmin/includes/class-wpca-database-settings.php:175-185 | one flag entry per name, in order |
| DatabaseSettings.Frequency | wpcleanadmin/includes/class-wpca-database-settings.php:188 | with a strict check, the submitted schedule_frequency is kept only when it is daily, weekly, monthly or disabled, and is "disabled" otherwise |
| DatabaseSettings.Validated | wpcleanadmin/includes/class-wpca-database-settings.php:173-193 | the nine flags, then schedule_frequency |
| DatabaseSettings.UpdateScheduledCleanup | wpcleanadmin/includes/class-wpca-database-settings.php:201-211 | no call without the WPCA_Database class; otherwise exactly one call: unschedule for "disabled", schedule with the frequency for anything else |
| DatabaseSettings.ValidateSettings | wpcleanadmin/includes/class-wpca-database-settings.php:171-194 | the saved frequency is the checked one, and the one scheduler call, if the database class is loaded, is for it |
| DatabaseSettings.ValidatedUnique | wpcleanadmin/includes/class-wpca-database-settings.php:173-188 | the validated array has ten distinct keys, the nine flags first |
| DatabaseSettings.ValidatedFrequency | wpcleanadmin/includes/class-wpca-database-settings.php:188 | the frequency is found under its key |
| DatabaseSettings.ValidatedFlag | wpcleanadmin/includes/class-wpca-database-settings.php:175-185 | each flag reads as `(int)` of the submitted field, or 0 when it is not set |
| DatabaseSettings.FrequencyKept | wpcleanadmin/includes/class-wpca-database-settings.php:188-211 | with the strict check, a frequency other than "disabled" is the submitted one, and the scheduler is told to unschedule exactly when the database class is loaded and the frequency is "disabled" |
| DatabaseSettings.FrequencyAsWrittenAccepts | wpcleanadmin/includes/class-wpca-database-settings.php:188 | the loose `in_array` as written keeps the submitted value exactly when it is one of the four words or the boolean true |
| DatabaseSettings.InArrayLooseWords | wpcleanadmin/includes/class-wpca-database-settings.php:188 | a loose `in_array` against four non-empty words holds for one of the words or for true |
| DatabaseSettings.FrequencyAsWrittenTrue | wpcleanadmin/includes/class-wpca-database-settings.php:188-191 | a submitted true is saved as the frequency and handed on to the scheduler, where the strict check would unschedule |
| DatabaseSettings.DefaultSettings | wpcleanadmin/includes/class-wpca-database-settings.php:348-359 | ten defaults |
| DatabaseSettings.DefaultsLikeValidated | wpcleanadmin/includes/class-wpca-database-settings.php:348-359 | the defaults have the validated shape: every flag 1 and a weekly schedule |
| DatabaseSettings.GetSettingsLookup | wpcleanadmin/includes/class-wpca-database-settings.php:344-362 | a stored value wins, and a key the option lacks keeps its default |
| DatabaseSettings.GetSettingsDefault | wpcleanadmin/includes/class-wpca-database-settings.php:344-362 | without a stored value each flag is 1 and the schedule is weekly |
| UserRoles.FilterSettingsForRoles | wpcleanadmin/includes/class-wpca-user-roles.php:74-109 | the loop unsets the sensitive keys one at a time and ends with the specification's filtered settings |
| UserRoles.StripLookup | wpcleanadmin/includes/class-wpca-user-roles.php:102-106 | after the loop a listed key is gone and every other key reads as before |
| UserRoles.StripNoop | wpcleanadmin/includes/class-wpca-user-roles.php:102-106 | the loop changes nothing when none of the keys holds a value |
| UserRoles.FilteredHidesSensitive | wpcleanadmin/includes/class-wpca-user-roles.php:94-108 | a user without manage_options or wpca_manage_all never sees menu_toggles, menu_order, menu_toggle or hide_admin_bar_items; every other key is kept |
| UserRoles.FilteredPassThrough | wpcleanadmin/includes/class-wpca-user-roles.php:76-92 | a non-array gives []; administrators and holders of wpca_manage_all get the settings unchanged |
| UserRoles.FilteredIdempotent | wpcleanadmin/includes/class-wpca-user-roles.php:74-109 | filtering twice is filtering once |
| UserRoles.Filtered | wpcleanadmin/includes/class-wpca-user-roles.php:74-109 | filter_settings_for_roles: [] for a non-array, the settings unchanged for managers, otherwise the settings with the sensitive keys unset; FilteredHidesSensitive, FilteredPassThrough and FilteredIdempotent state its properties |
| DatabaseSettings.FrequencyAsWritten | wpcleanadmin/includes/class-wpca-database-settings.php:188 | schedule_frequency as written, through the loose `in_array`; FrequencyAsWrittenAccepts and FrequencyAsWrittenTrue state what it lets through |
| DatabaseSettings.GetSettings | wpcleanadmin/includes/class-wpca-database-settings.php:344-362 | get_settings: the stored option over the defaults; GetSettingsLookup and GetSettingsDefault state what each key reads |
| ThemeTemplates.FieldOf | wpcleanadmin/includes/class-wpca-theme-templates.php:280-341 | a field of something that is not an array reads as null |
| ThemeTemplates.SectionStart | wpcleanadmin/includes/class-wpca-theme-templates.php:281-283 | a section that is set must be an array to be written into; an unset section starts as the empty array |
| ThemeTemplates.MergeSettings | wpcleanadmin/includes/class-wpca-theme-templates.php:280-288 | the nested loops compute the specification's merge of every template section into the settings |
| ThemeTemplates.MergeOne | wpcleanadmin/includes/class-wpca-theme-templates.php:281-287 | one outer iteration computes one section's merge |
| ThemeTemplates.WriteKeys | wpcleanadmin/includes/class-wpca-theme-templates.php:285-287 | the inner loop writes the template's keys over the section, in order |
| ThemeTemplates.MergeSectionOther | wpcleanadmin/includes/class-wpca-theme-templates.php:280-288 | one outer iteration leaves every other settings key as it was |
| ThemeTemplates.MergeSectionWrites | wpcleanadmin/includes/class-wpca-theme-templates.php:281-287 | one outer iteration sets the section to the old one overwritten by the template's keys |
| ThemeTemplates.MergedKeepsOthers | wpcleanadmin/includes/class-wpca-theme-templates.php:280-288 | a settings key that no template section names keeps its value |
| ThemeTemplates.MergedSection | wpcleanadmin/includes/class-wpca-theme-templates.php:280-288 | a template section with a non-empty array ends up as the old section overwritten key by key |
| ThemeTemplates.MergedKey | wpcleanadmin/includes/class-wpca-theme-templates.php:280-288 | after the merge each template key reads as the template's value and the section's other keys are kept |
| ThemeTemplates.Search | wpcleanadmin/includes/class-wpca-theme-templates.php:414-427 | the result is no longer than the registry |
| ThemeTemplates.SearchLookup | wpcleanadmin/includes/class-wpca-theme-templates.php:418-424 | an id is in the result iff it is registered and its lower-cased name and description contain the query, and then it maps to its template |
| ThemeTemplates.AppendFound | wpcleanadmin/includes/class-wpca-theme-templates.php:421 | `$results[$id] = $template` on a fresh id makes the id find the template |
| ThemeTemplates.TemplateRegistry.constructor | wpcleanadmin/includes/class-wpca-theme-templates.php:53-62 | the registry holds the given default templates and nothing has been saved |
| ThemeTemplates.TemplateRegistry.GetTemplate | wpcleanadmin/includes/class-wpca-theme-templates.php:256-260 | the template registered under the sanitised id, and null exactly when none is |
| ThemeTemplates.TemplateRegistry.GetCount | wpcleanadmin/includes/class-wpca-theme-templates.php:404-406 | the number of registered templates |
| ThemeTemplates.TemplateRegistry.ApplyTemplate | wpcleanadmin/includes/class-wpca-theme-templates.php:268-298 | an unknown id saves nothing and fails; a known one saves the merged settings once and returns the template |
| ThemeTemplates.TemplateRegistry.ImportTemplate | wpcleanadmin/includes/class-wpca-theme-templates.php:331-357 | data without an array under settings is rejected and nothing is saved; otherwise the merged settings are saved once and the name defaults to "Custom Template" |
| ThemeTemplates.TemplateRegistry.SearchTemplates | wpcleanadmin/includes/class-wpca-theme-templates.php:414-427 | the loop returns exactly the specification's search over the registered templates |
| ThemeTemplates.ValidateTemplateMeans | wpcleanadmin/includes/class-wpca-theme-templates.php:435-445 | validation holds iff settings is set and an array and name is set and non-empty |
| ThemeTemplates.SearchTemplatesExact | wpcleanadmin/includes/class-wpca-theme-templates.php:414-427 | the search result holds, under their ids, exactly the registered templates whose text contains the lower-cased sanitised query |
| ThemeTemplates.MergeSection | wpcleanadmin/includes/class-wpca-theme-templates.php:281-287 | one outer iteration: an empty section is created when unset, a non-empty one overwrites the section key by key, None where the section holds a scalar; MergeSectionOther and MergeSectionWrites state its properties |
| ThemeTemplates.Merged | wpcleanadmin/includes/class-wpca-theme-templates.php:280-288 | the outer foreach over the template's sections; MergedKeepsOthers, MergedSection and MergedKey state what the merge leaves |
| ThemeTemplates.ValidateTemplate | wpcleanadmin/includes/class-wpca-theme-templates.php:435-445 | validate_template: an array under settings and a non-empty name; ValidateTemplateMeans states it on the raw data |
| Performance.SamplingRate | wpcleanadmin/includes/class-wpca-performance.php:150-153 | the rate lies in [1, 100]; it is 100 when the option is unset and the option's integer value when that is in range |
| Performance.ShortUri | wpcleanadmin/includes/class-wpca-performance.php:170-176 | a URI without `?` is kept; otherwise the path, `?` and the first 100 characters of the query |
| Performance.Page | wpcleanadmin/includes/class-wpca-performance.php:166-182 | "Unknown" without a URI; otherwise a prefix, at most 255 long, of the sanitised URI with its query cut |
| Performance.PageShortPath | wpcleanadmin/includes/class-wpca-performance.php:166-179 | a sanitised URI without `?` and at most 255 long is recorded unchanged |
| Performance.PageQueryCut | wpcleanadmin/includes/class-wpca-performance.php:170-179 | a short path is kept whole, and at most 100 characters of the query survive |
| Performance.RetentionDays | wpcleanadmin/includes/class-wpca-performance.php:355-361 | the retention lies in [1, 365], defaults to 7 and is the option's integer value when that is in range |
| Performance.Capped | wpcleanadmin/includes/class-wpca-performance.php:327-333 | at most 1000 entries, a suffix of the log; a log of at most 1000 entries is kept whole and a longer one cut to exactly 1000 |
| Performance.Kept | wpcleanadmin/includes/class-wpca-performance.php:377-384 | the kept entries are no more than the log's |
| Performance.MemoryUsage | wpcleanadmin/includes/class-wpca-performance.php:288-294 | never negative, and the peak minus the start when the peak is not below the start |
| Performance.FilterLog | wpcleanadmin/includes/class-wpca-performance.php:377-384 | the loop keeps the specification's entries, in order |
| Performance.Monitor.constructor | wpcleanadmin/includes/class-wpca-performance.php:57-70 | the monitor starts unsampled with no queries counted and nothing written |
| Performance.Monitor.InitPerformanceMonitoring | wpcleanadmin/includes/class-wpca-performance.php:144-186 | a roll within the sampling rate records the start memory and the page and resets the query count; a roll above it leaves no start time |
| Performance.Monitor.SavePerformanceData | wpcleanadmin/includes/class-wpca-performance.php:267-344 | without a start time nothing is written; otherwise the stored log plus the new record, capped at 1000, is written, followed by the cleanup's write |
| Performance.Monitor.CleanupOldPerformanceData | wpcleanadmin/includes/class-wpca-performance.php:352-396 | the log is replaced by its recent entries, and written only when some entry was dropped |
| Performance.Cutoff | wpcleanadmin/includes/class-wpca-performance.php:355-369 | the cutoff lies between one and 365 days before now |
| Performance.SavedLog | wpcleanadmin/includes/class-wpca-performance.php:318-333 | the saved log holds at most 1000 entries, is non-empty and ends with the new record |
| Performance.CleanupWrites | wpcleanadmin/includes/class-wpca-performance.php:387-391 | at most one write |
| Performance.CleanupWritesIff | wpcleanadmin/includes/class-wpca-performance.php:372-391 | a write happens iff some stored entry is not a recent array (or the option is not an array); without one the log stays; the written log holds exactly the recent entries |
| Performance.LogValuesList | wpcleanadmin/includes/class-wpca-performance.php:372-378 | the entries read back from a written list are that list |
| Performance.KeptMembers | wpcleanadmin/includes/class-wpca-performance.php:377-384 | an entry is kept iff it was in the log and its timestamp is after the cutoff |
| Performance.KeptAll | wpcleanadmin/includes/class-wpca-performance.php:377-391 | nothing is dropped iff every entry is recent, and then the log is unchanged |
| Performance.KeptIdempotent | wpcleanadmin/includes/class-wpca-performance.php:377-384 | cleaning twice with one cutoff is cleaning once |
| Performance.KeptLast | wpcleanadmin/includes/class-wpca-performance.php:377-384 | a recent last entry survives the cleanup and stays last |
| Performance.RecordTimestamp | wpcleanadmin/includes/class-wpca-performance.php:301-308 | the saved record's timestamp is the save's time |
| Performance.SaveKeepsNewest | wpcleanadmin/includes/class-wpca-performance.php:318-391 | after a save and its cleanup the stored log holds at most 1000 entries and ends with the new record |
| Login.MaxAttempts | wpcleanadmin/includes/class-wpca-login.php:256 | the maximum is 5 when the login settings do not set it |
| Login.LockoutDuration | wpcleanadmin/includes/class-wpca-login.php:259 | the lockout is 300 seconds when the login settings do not set it |
| Login.Incremented | wpcleanadmin/includes/class-wpca-login.php:288 | a missing or zero counter becomes 1, any other one goes up by one |
| Login.AttemptsIn | wpcleanadmin/includes/class-wpca-login.php:265-285 | the counter for the IP is readable exactly while its transient has not expired, and then it is the stored count |
| Login.LoginGuard.constructor | wpcleanadmin/includes/class-wpca-login.php:41-46 | the guard starts with the given transient store |
| Login.LoginGuard.CheckLoginAttempts | wpcleanadmin/includes/class-wpca-login.php:251-273 | the lockout error iff the IP's live counter reaches the maximum; otherwise the incoming user unchanged |
| Login.LoginGuard.LogFailedLoginAsWritten | wpcleanadmin/includes/class-wpca-login.php:280-294 | the IP's counter is set to the incremented value for 300 seconds, whatever lockout is configured |
| Login.LoginGuard.LogFailedLogin | wpcleanadmin/includes/class-wpca-login.php:259-294 | the IP's counter is set to the incremented value for the configured lockout duration |
| Login.LockoutAfterFive | wpcleanadmin/includes/class-wpca-login.php:256-270 | with the default maximum a fifth counted failure locks out and a fourth does not; a missing counter never does |
| Login.NoCounterLockedOut | wpcleanadmin/includes/class-wpca-login.php:265-270 | a missing counter compares as 0, which locks out only when the maximum is 0 |
| Login.LoggedCounter | wpcleanadmin/includes/class-wpca-login.php:285-293 | a failure makes this IP's counter one higher until it expires and leaves other IPs' counters alone |
| Login.FailuresCount | wpcleanadmin/includes/class-wpca-login.php:285-293 | n failures in a row from no counter leave the counter at n |
| Login.LockoutDurationIgnored | wpcleanadmin/includes/class-wpca-login.php:259-292 | as written a longer configured lockout is still forgotten after 300 seconds; the corrected one still counts |
| Login.FilterLoginHeaderUrl | wpcleanadmin/includes/class-wpca-login.php:97-108 | the escaped configured URL when it is set and non-empty, the given URL otherwise |
| Login.FilterLoginHeaderTitle | wpcleanadmin/includes/class-wpca-login.php:115-126 | the escaped configured title when it is set and non-empty, the given title otherwise |
| Login.FilterLoginBodyClass | wpcleanadmin/includes/class-wpca-login.php:146-157 | the sanitised configured class appended when it is set and non-empty, the classes unchanged otherwise |
| Login.BodyClassPrefix | wpcleanadmin/includes/class-wpca-login.php:146-157 | the filter adds at most one class and keeps the given ones in front |
| Login.LockedOut | wpcleanadmin/includes/class-wpca-login.php:265-270 | `$login_attempts >= $max_attempts` with a missing counter compared as false; LockoutAfterFive and NoCounterLockedOut state what it decides |
| Login.Logged | wpcleanadmin/includes/class-wpca-login.php:285-293 | the transient store after one failure: the IP's counter incremented, living the given number of seconds; LoggedCounter and FailuresCount state its properties |
| SanitizeKeys.KeepKeyChars | wpcleanadmin/includes/class-wpca-resources.php:144-161 | only a-z, 0-9, `_` and `-` are left, and nothing is added |
| SanitizeKeys.SanitizeKey | wpcleanadmin/includes/class-wpca-resources.php:144-205 | a sanitised key holds only key characters |
| SanitizeKeys.SanitizeKeyValue | wpcleanadmin/includes/class-wpca-resources.php:143-144 | any value sanitises to key characters only |
| SanitizeKeys.KeepKeyCharsNoop | wpcleanadmin/includes/class-wpca-resources.php:184 | a string of key characters is left as it is |
| SanitizeKeys.SanitizeKeyFixed | wpcleanadmin/includes/class-wpca-resources.php:184 | `sanitize_key($h) === $h` holds exactly when the handle has only key characters |
| SanitizeKeys.SanitizeKeyIdempotent | wpcleanadmin/includes/class-wpca-resources.php:384-387 | sanitising twice is sanitising once, and a non-empty sanitised key always passes the handle pattern; the page hook check at lines 465-468 is the same |
| SanitizeKeys.KeepKeyCharsAppend | wpcleanadmin/includes/class-wpca-resources.php:205 | the filter works character by character over a concatenation |
| SanitizeKeys.SanitizeKeyDropsDot | wpcleanadmin/includes/class-wpca-resources.php:286-292 | a key with a `.` inserted sanitises to the key without it; the hook is sanitised at line 465 |
| SanitizeKeys.SanitizedLabel | wpcleanadmin/includes/class-wpca-resources.php:286-292 | `<name>.php` sanitises to `<name>php`; the hook is sanitised at line 465 |
| Resources.TruthyEntries | wpcleanadmin/includes/class-wpca-resources.php:72-87 | `array_filter` keeps no more than the entries it is given |
| Resources.TruthyEntriesMembers | wpcleanadmin/includes/class-wpca-resources.php:72-87 | `array_filter` keeps exactly the entries with truthy values |
| Resources.ReplaceAllIntroduces | wpcleanadmin/includes/class-wpca-resources.php:186 | replacing an occurring pattern puts the replacement into the result |
| Resources.AddDeferMeans | wpcleanadmin/includes/class-wpca-resources.php:186 | a tag with ` src` gets ` defer src`; any other tag is unchanged |
| Resources.DeferListIgnoredInAdmin | wpcleanadmin/includes/class-wpca-resources.php:177-190 | in the admin area, where the filter runs, an unlisted valid handle whose tag lacks defer and async is deferred as written and not as intended; the filter is registered at lines 108-109 |
| Resources.DeferIntendedMeans | wpcleanadmin/includes/class-wpca-resources.php:177-190 | the intended filter defers only listed handles; it defers exactly the listed handles the as-written filter defers when run in admin, and each of them the as-written filter would also defer outside admin |
| Resources.GenerateCriticalCss | wpcleanadmin/includes/class-wpca-resources.php:280-299 | the dashboard sheet iff the hook is `index.php`, the list sheet iff it is `edit.php` |
| Resources.SanitizedHookGetsDefault | wpcleanadmin/includes/class-wpca-resources.php:286-296 | a sanitised hook never has a `.`, so the generator always gives the default sheet; the hook is sanitised at line 465 and passed on at line 492 |
| Resources.IntendedCriticalCss | wpcleanadmin/includes/class-wpca-resources.php:286-296 | the corrected generator, on sanitised hooks, serves the dashboard and list sheets for `index.php` and `edit.php`, and the default otherwise; the hook is sanitised at line 465 |
| Resources.DashboardRequestFinding | wpcleanadmin/includes/class-wpca-resources.php:286-296 | a request for `index.php` gets the default sheet as written and the dashboard sheet once corrected; the hook is sanitised at line 465 |
| Resources.InlineFor | wpcleanadmin/includes/class-wpca-resources.php:195-215 | a style block is printed iff the hook is listed and the option under its sanitised key is non-empty, and then it wraps that CSS |
| Resources.DetectResourceSource | wpcleanadmin/includes/class-wpca-resources.php:581-597 | "Inline" iff the source is empty; "WordPress Core" iff it contains wp-admin or wp-includes |
| Resources.SecurityCheck | wpcleanadmin/includes/class-wpca-resources.php:357-378 | a request passes iff it is an AJAX request with a non-blank security field, a valid nonce and the wpca_manage_all capability; the second handler repeats the checks at lines 440-461 |
| Resources.ResourceTypeAccepted | wpcleanadmin/includes/class-wpca-resources.php:387 | the loose check against css and js accepts exactly those two strings |
| Resources.InArrayLooseTwoWords | wpcleanadmin/includes/class-wpca-resources.php:387 | a loose `in_array` of a string against two non-numeric words is plain membership |
| Resources.SanitizedHandleAccepted | wpcleanadmin/includes/class-wpca-resources.php:384-387 | after sanitize_key the emptiness and pattern checks reject exactly "" and "0" |
| Resources.AjaxTestAccepts | wpcleanadmin/includes/class-wpca-resources.php:350-426 | success exactly for a secure request of type css or js whose handle sanitises to something other than "" and "0", and then the reply carries type and handle |
| Resources.AjaxCriticalCssHook | wpcleanadmin/includes/class-wpca-resources.php:465-483 | a hook that gets through is non-empty, not "0" and made of key characters |
| Resources.LoadList | wpcleanadmin/includes/class-wpca-resources.php:70-73 | an option that is an array replaces the list with its truthy entries; otherwise the list stays |
| Resources.ResourceManager.constructor | wpcleanadmin/includes/class-wpca-resources.php:51-63 | the four lists start empty and are loaded from the options |
| Resources.ResourceManager.InitializeConfig | wpcleanadmin/includes/class-wpca-resources.php:69-89 | each configured list becomes the truthy entries of its option and no other field changes |
| Resources.ResourceManager.DeferNonCriticalJsAsWritten | wpcleanadmin/includes/class-wpca-resources.php:177-190 | the tag is deferred exactly when the as-written condition holds |
| Resources.ResourceManager.DeferNonCriticalJs | wpcleanadmin/includes/class-wpca-resources.php:177-190 | the tag is deferred (` src` becoming ` defer src`) exactly when DeferIntended holds: a listed handle equal to its sanitised key whose tag has neither defer nor async; otherwise it comes back unchanged |
| Resources.ResourceManager.InlineCriticalCss | wpcleanadmin/includes/class-wpca-resources.php:195-215 | what is echoed is the style block for the current hook, if any |
| Resources.ResourceManager.AjaxGenerateCriticalCss | wpcleanadmin/includes/class-wpca-resources.php:433-524 | a rejected request saves nothing; an accepted one saves the generated sheet under the hook's option and replies with the hook and the CSS length |
| Resources.HandlesToRemove | wpcleanadmin/includes/class-wpca-resources.php:143-165 | every removed handle is non-empty and made of key characters |
| Resources.DeregisterHandles | wpcleanadmin/includes/class-wpca-resources.php:143-165 | the loop deregisters and dequeues exactly the specification's handles, in order |
| Resources.HandlesFromList | wpcleanadmin/includes/class-wpca-resources.php:143-148 | every removed handle is the sanitised key of some listed value |
| Resources.SavedCssInlined | wpcleanadmin/includes/class-wpca-resources.php:195-215 | CSS saved for a hook is what a listed page with that hook then prints; the CSS is saved at lines 500-502 |
| Resources.GeneratedCssInlined | wpcleanadmin/includes/class-wpca-resources.php:195-215 | what the AJAX action saves is printed on a listed page, and it is always the default sheet; the CSS is generated and saved at lines 492-502 |
| Resources.DeferAsWritten | wpcleanadmin/includes/class-wpca-resources.php:179-184 | the filter's condition with PHP's precedence: a listed handle outside admin, or any tag without defer or async, and in both cases a handle equal to its sanitised key; DeferListIgnoredInAdmin states what that lets through |
| Resources.DeferIntended | wpcleanadmin/includes/class-wpca-resources.php:179-184 | the condition the filter is for: a listed, valid handle whose tag has neither defer nor async; DeferIntendedMeans relates it to the condition as written |
| Resources.GenerateCriticalCssIntended | wpcleanadmin/includes/class-wpca-resources.php:286-296 | the switch with its labels sanitised as the hook is; IntendedCriticalCss and DashboardRequestFinding state what it serves |
| Resources.AjaxTestResourceRemoval | wpcleanadmin/includes/class-wpca-resources.php:350-426 | ajax_test_resource_removal: the security check, then the type and handle checks, then the success data; AjaxTestAccepts states exactly when it succeeds and with what |
| Elementor.Children | wpcleanadmin/includes/class-wpca-elementor.php:506-507 | the children of an element are an array and structurally smaller than it |
| Elementor.CountCssMethodsRecursive | wpcleanadmin/includes/class-wpca-elementor.php:496-512 | the loop, with its recursive calls, computes the specification's count over the whole array |
| Elementor.PostElementorData | wpcleanadmin/includes/class-wpca-elementor.php:335-358 | null unless the post uses the builder and has non-empty data |
| Elementor.GetCssMethodsCount | wpcleanadmin/includes/class-wpca-elementor.php:480-489 | empty data counts 0; non-empty data that is not an array is a type error; an array gets the recursive count |
| Elementor.WrappedAppend | wpcleanadmin/includes/class-wpca-elementor.php:499-510 | counting wrapped elements distributes over concatenation |
| Elementor.CssCountIsWrappedNodes | wpcleanadmin/includes/class-wpca-elementor.php:496-512 | the count is the number of element nodes anywhere in the tree that carry `_css_wrapper` |
| Elementor.ElementCountIsWrapped | wpcleanadmin/includes/class-wpca-elementor.php:500-508 | one element contributes the number of wrapped nodes in its subtree |
| Elementor.WrappedBound | wpcleanadmin/includes/class-wpca-elementor.php:500-504 | no node counts twice: the count is at most the number of nodes, and 0 iff no node has a wrapper |
| Elementor.FlatCount | wpcleanadmin/includes/class-wpca-elementor.php:496-512 | an empty array counts 0, and an array without children counts its wrapped elements |
| Elementor.FlatCountUpTo | wpcleanadmin/includes/class-wpca-elementor.php:496-512 | a prefix of an array without children counts its wrapped elements |
| Elementor.RecommendationsMeans | wpcleanadmin/includes/class-wpca-elementor.php:563-593 | no advice while Elementor is inactive; otherwise a warning iff more than 50 templates and a cache hint iff more than 100 documents, the warning first |
| Elementor.CssCount | wpcleanadmin/includes/class-wpca-elementor.php:496-512 | what count_css_methods_recursive adds up over the first n elements; CssCountIsWrappedNodes, WrappedBound and FlatCount state what it counts |
| Elementor.PerformanceRecommendations | wpcleanadmin/includes/class-wpca-elementor.php:563-593 | get_performance_recommendations with the two database counts as parameters; RecommendationsMeans states when each piece of advice appears |
| CoreFunctions.RemoveDashboardWidgets | wpcleanadmin/includes/wpca-core-functions.php:28-51 | the loop makes exactly the specification's meta-box removals, or raises at a listed array |
| CoreFunctions.WidgetRemovalsRaiseStays | wpcleanadmin/includes/wpca-core-functions.php:45-50 | once a listed id is an array, `isset` raises and so does every longer list |
| CoreFunctions.WidgetRemovalsMeans | wpcleanadmin/includes/wpca-core-functions.php:37-50 | each removal is of a listed string that the widget map knows, with its sanitised id and the map's screen and context; every such listed string is removed |
| CoreFunctions.CustomClasses | wpcleanadmin/includes/wpca-core-functions.php:72-83 | at most three custom classes |
| CoreFunctions.AdminBodyClassMeans | wpcleanadmin/includes/wpca-core-functions.php:63-90 | the given classes stay in front; nothing is added iff no option is customised; otherwise one space and the custom classes joined by spaces follow |
| CoreFunctions.CustomClassesOrder | wpcleanadmin/includes/wpca-core-functions.php:75-83 | theme, layout, radius in that order, each present exactly when its option is non-empty and not its default |
| CoreFunctions.LowerWordPress | wpcleanadmin/includes/wpca-core-functions.php:202 | the needle stripos looks for is "wordpress" |
| CoreFunctions.KeptParts | wpcleanadmin/includes/wpca-core-functions.php:201-205 | no more parts than given |
| CoreFunctions.RemoveWordPressFromTitle | wpcleanadmin/includes/wpca-core-functions.php:189-212 | the method computes the specification's filtered title parts |
| CoreFunctions.StripParts | wpcleanadmin/includes/wpca-core-functions.php:201-205 | a part that is an array makes stripos raise; otherwise the loop keeps the specification's parts, in order |
| CoreFunctions.KeptPartsMembers | wpcleanadmin/includes/wpca-core-functions.php:201-205 | a part is kept iff it was given and does not mention WordPress in any case |
| CoreFunctions.TitlePartsMeans | wpcleanadmin/includes/wpca-core-functions.php:189-212 | with the option off or outside admin the parts come back as they were; otherwise a list numbered from 0 of exactly the parts that do not mention WordPress |
| CoreFunctions.ReplaceIgnoreCaseAbsent | wpcleanadmin/includes/wpca-core-functions.php:238-270 | `str_ireplace` of something that never occurs, in any case, changes nothing |
| CoreFunctions.RemoveIgnoreCaseShortens | wpcleanadmin/includes/wpca-core-functions.php:238-270 | removing a pattern never lengthens the string, and removing one that occurs shortens it by at least its length |
| CoreFunctions.RemoveShortens | wpcleanadmin/includes/wpca-core-functions.php:240 | `str_replace` with an empty replacement never lengthens the string |
| CoreFunctions.DocumentTitleMeans | wpcleanadmin/includes/wpca-core-functions.php:259-276 | untouched when off; only trimmed when WordPress is absent; at least nine characters shorter when it is present; a non-empty result has no outer whitespace |
| CoreFunctions.WpTitleMeans | wpcleanadmin/includes/wpca-core-functions.php:227-246 | untouched when off; only de-separated and trimmed when WordPress is absent; never longer than the given title |
| CoreFunctions.WidgetRemovals | wpcleanadmin/includes/wpca-core-functions.php:37-50 | the remove_meta_box calls for the listed widgets in order, None where a listed array makes `isset` raise; WidgetRemovalsMeans and WidgetRemovalsRaiseStays state its properties |
| CoreFunctions.AdminBodyClass | wpcleanadmin/includes/wpca-core-functions.php:63-90 | wpca_admin_body_class: the given classes, then one space and the custom classes when there are any; AdminBodyClassMeans and CustomClassesOrder state its properties |
| CoreFunctions.TitleParts | wpcleanadmin/includes/wpca-core-functions.php:189-212 | wpca_remove_wordpress_from_title: the parts untouched when off, None at an array part, otherwise the renumbered parts without WordPress; TitlePartsMeans states its properties |
| CoreFunctions.WpTitle | wpcleanadmin/includes/wpca-core-functions.php:227-246 | wpca_remove_wordpress_from_wp_title: WordPress removed in any case, the separator with two spaces on either side removed, then trimmed; WpTitleMeans states its properties |
| CoreFunctions.DocumentTitle | wpcleanadmin/includes/wpca-core-functions.php:259-276 | wpca_remove_wordpress_from_document_title: WordPress removed in any case, then trimmed; DocumentTitleMeans states its properties |
| Autoload.SwapChar | wpcleanadmin/includes/autoload.php:92-94 | same length, every `c` turned into `d` and every other character kept |
| Autoload.ReplaceCharIsSwap | wpcleanadmin/includes/autoload.php:92-94 | `str_replace` of one character by one character is the position-wise swap |
| Autoload.StripPhpSuffix | wpcleanadmin/includes/autoload.php:87 | a file name with no other `.php` loses exactly its suffix |
| Autoload.StripPhpCanReform | wpcleanadmin/includes/autoload.php:87 | one pass of `str_replace` can leave a `.php` behind: removing one joins the text around it into another |
| Autoload.UcWordsKeepsUnderscoreAbsent | wpcleanadmin/includes/autoload.php:93 | `ucwords` never produces an underscore |
| Autoload.ClassWordsPlain | wpcleanadmin/includes/autoload.php:91-94 | a `class-wpca-*` file's class name has no underscore and no space |
| Autoload.FilePathToClassNameMeans | wpcleanadmin/includes/autoload.php:85-101 | a `class-wpca-*` path gives a name without `_` or space, so never one starting "WPCA_"; any other path has `/` turned into `\` and its first character upper-cased |
| Autoload.DashRestAppend | wpcleanadmin/includes/autoload.php:141 | the dash insertion works character by character |
| Autoload.DashRestChar | wpcleanadmin/includes/autoload.php:141 | a dash goes before a capital and nowhere else |
| Autoload.DashRestNoCapitals | wpcleanadmin/includes/autoload.php:141 | text without capitals is left alone |
| Autoload.ClassNameToFilePath | wpcleanadmin/includes/autoload.php:138-145 | the file name ends in `.php` and has no capital letter |
| Autoload.DashRestCapitalFirst | wpcleanadmin/includes/autoload.php:141 | a capital at the front of the rest gets a dash |
| Autoload.DashedAfterPrefix | wpcleanadmin/includes/autoload.php:141 | the insertion leaves a capital-free prefix alone and puts a dash before the capital after it |
| Autoload.ReplaceLeadingPrefix | wpcleanadmin/includes/autoload.php:140 | replacing a leading "WPCA_" keeps the next character right after "class-wpca-" |
| Autoload.DoubleDash | wpcleanadmin/includes/autoload.php:138-145 | the class `WPCA_` + R, R starting with a capital, is looked for in a file starting "class-wpca--" |
| Autoload.Capitalised | wpcleanadmin/includes/autoload.php:93 | `ucwords` on `_`-separated words: same length, the first letter of each word upper-cased, nothing else changed |
| Autoload.BaseOf | wpcleanadmin/includes/autoload.php:87 | a name ending in `.php` loses that suffix; any other stays |
| Autoload.BaseOfClassFile | wpcleanadmin/includes/autoload.php:87 | a class file's base is "class-wpca-" and its rest |
| Autoload.ClassOfClassBase | wpcleanadmin/includes/autoload.php:89-94 | the intended name of a class file base is "WPCA_" and its capitalised words |
| Autoload.ClassFileOfClassName | wpcleanadmin/includes/autoload.php:138-145 | the intended file of "WPCA_" + words is "class-wpca-" and the lower-cased dashed words |
| Autoload.FileWordsBack | wpcleanadmin/includes/autoload.php:89-145 | lower-case dashed words turned into capitalised underscore words and back are unchanged |
| Autoload.UpperOfLower | wpcleanadmin/includes/autoload.php:93-141 | upper-casing undoes lower-casing on anything but a lower-case letter |
| Autoload.ClassWordsBack | wpcleanadmin/includes/autoload.php:89-145 | capitalised underscore words turned into dashed lower case and back are unchanged |
| Autoload.FileClassFile | wpcleanadmin/includes/autoload.php:85-145 | with the intended conversions a class file's class maps back to the file |
| Autoload.ClassFileClass | wpcleanadmin/includes/autoload.php:85-145 | with the intended conversions a class's file maps back to the class |
| Autoload.DynamicPathMisses | wpcleanadmin/includes/autoload.php:117-145 | as written the dynamic path for a plugin class differs from its file: the twelfth character is a dash where the file has the class's first letter |
| Autoload.ClassMapKeys | wpcleanadmin/includes/autoload.php:50-77 | the map's keys are exactly the class names of the listed PHP files |
| Autoload.ClassMapValue | wpcleanadmin/includes/autoload.php:64-73 | each key maps to the path of the last listed file with that class name |
| Autoload.Autoloaded | wpcleanadmin/includes/autoload.php:110-130 | only names starting "WPCA_" are loaded; a mapped one loads its mapped path; an unmapped one loads its dynamic path when that file exists and nothing otherwise |
| Autoload.Autoloader.constructor | wpcleanadmin/includes/autoload.php:40-43 | the class map is built from the listing of `includes/`, empty when the directory is missing |
| Autoload.Autoloader.GenerateClassMap | wpcleanadmin/includes/autoload.php:50-77 | the loop builds the specification's map from the listing, or the empty map without the directory |
| Autoload.Autoloader.Autoload | wpcleanadmin/includes/autoload.php:110-130 | the method loads exactly what the specification says |
| Autoload.ClassMapNeverServesClassFiles | wpcleanadmin/includes/autoload.php:50-116 | as written no `class-wpca-*` file directly under `includes/` is ever found through the map |
| Autoload.IntendedMapServesClassFiles | wpcleanadmin/includes/autoload.php:50-116 | with the intended conversions a listed class file is loaded through the map under its class name |
| Autoload.FilePathToClassName | wpcleanadmin/includes/autoload.php:85-101 | file_path_to_class_name: `.php` removed, then either the `class-wpca-*` conversion or the namespace conversion; FilePathToClassNameMeans states what each gives |
| Autoload.ClassToFile | wpcleanadmin/includes/autoload.php:138-145 | the class-to-file conversion a loader uses, as written or as documented; DoubleDash, DynamicPathMisses and ClassFileClass state what each gives |
| NormalizeLineEndings.TargetExtensions | wpcleanadmin/tools/normalize_line_endings.php:17-19 | seven extensions |
| NormalizeLineEndings.AfterLastShape | wpcleanadmin/tools/normalize_line_endings.php:28 | the text after the last `c` holds no `c` and ends the string |
| NormalizeLineEndings.AfterLastMark | wpcleanadmin/tools/normalize_line_endings.php:28 | where there is a `c`, the text after the last one follows it; where there is none, it is the whole string |
| NormalizeLineEndings.AfterLastOf | wpcleanadmin/tools/normalize_line_endings.php:28 | the text after a last `c` is found as such |
| NormalizeLineEndings.SuffixKeepsAbsent | wpcleanadmin/tools/normalize_line_endings.php:28 | a suffix of a text without `c` has no `c` |
| NormalizeLineEndings.PathExtensionShape | wpcleanadmin/tools/normalize_line_endings.php:28 | the extension holds no dot and no slash, and ends the basename right after a dot |
| NormalizeLineEndings.PathExtensionOf | wpcleanadmin/tools/normalize_line_endings.php:28 | a file name with an extension has that extension |
| NormalizeLineEndings.TargetExtensionsListed | wpcleanadmin/tools/normalize_line_endings.php:17-32 | the strict `in_array` holds exactly for php, js, css, po, pot, md and txt |
| NormalizeLineEndings.IsTargetTextFileMeans | wpcleanadmin/tools/normalize_line_endings.php:27-33 | a file is processed iff its lower-cased extension is one of the seven; a `.mo` file never is |
| NormalizeLineEndings.NormalizeLinesIsUnixified | wpcleanadmin/tools/normalize_line_endings.php:41-45 | the two replacements equal the one-pass reading that turns CRLF and lone CR into LF |
| NormalizeLineEndings.UnixifiedShape | wpcleanadmin/tools/normalize_line_endings.php:41-45 | no CR remains, each CRLF pair shortens the text by one, and text without CR is kept |
| NormalizeLineEndings.NormalizeLinesMeans | wpcleanadmin/tools/normalize_line_endings.php:41-45 | the result holds no CR; normalising again changes nothing; text without CR is returned as it is; the length drops by the number of CRLF pairs |
| NormalizeLineEndings.ParseDryRun | wpcleanadmin/tools/normalize_line_endings.php:112-117 | dry-run mode is on iff some argument is exactly `--dry-run` |
| NormalizeLineEndings.ProcessFile | wpcleanadmin/tools/normalize_line_endings.php:72-86 | the report names the file; an unreadable file is skipped; a dry run reports without writing; otherwise one write of the normalised content, reported OK or ERR as the write succeeds |
| NormalizeLineEndings.Run | wpcleanadmin/tools/normalize_line_endings.php:95-109 | the loop over the walk produces the specification's reports and writes |
| NormalizeLineEndings.RunOverCounts | wpcleanadmin/tools/normalize_line_endings.php:95-109 | one report per processed file, and a dry run writes nothing |
| NormalizeLineEndings.RunOverWrites | wpcleanadmin/tools/normalize_line_endings.php:84-109 | every write goes to a processed, readable file with its normalised content, so no written file holds a CR |
| NormalizeLineEndings.PathExtension | wpcleanadmin/tools/normalize_line_endings.php:28 | `pathinfo($path, PATHINFO_EXTENSION)`: the text after the basename's last dot, or nothing; PathExtensionShape and PathExtensionOf state its properties |
| NormalizeLineEndings.IsTargetTextFile | wpcleanadmin/tools/normalize_line_endings.php:27-33 | wpca_is_target_text_file: the lower-cased extension is not `mo` and is in the list; IsTargetTextFileMeans states what it decides |
| NormalizeLineEndings.NormalizeLines | wpcleanadmin/tools/normalize_line_endings.php:41-45 | wpca_normalize_line_endings: CRLF to LF, then lone CR to LF; NormalizeLinesIsUnixified and NormalizeLinesMeans state its properties |

## Left out

- WordPress functions are parameters of the operations that call them: `sanitize_text_field`, `esc_attr`, `esc_url`, `esc_html`, `sanitize_html_class`, `__`, `json_decode`, `get_option`, `update_option`, transients and capability checks.
- `sanitize_key` is the one exception. It is given its WordPress definition (lower-case, then keep a-z, 0-9, `_` and `-`) everywhere it is called: the resources class, the core functions, the extension API and the theme templates. The handle checks and the critical-CSS rule in `class-wpca-resources.php` depend on what it removes. The fallback in the repository's `error-logger.php` also removes the dot, so the critical-CSS finding holds under either definition.
- The clock, `rand(1, 100)`, `$_SERVER`, `$_POST`, the post meta and the database counts are parameters.
- File-system walks, reads and writes in `update-pot.py`, `check-translations.py`, `normalize_line_endings.php` and the autoloader are sequences of entries and outcomes, a failed read or write included. `echo`, `print`, exit codes and the HTML of the debug page are not modelled.
- `pack('L')` in `generate_mo_improved.php` uses the machine's byte order; the model fixes it to little-endian.
- Floating-point values are not modelled: load times, averages, `generate_performance_report`, `get_performance_stats` and `adjust_color_brightness`.
- The drivers of `generate_mo_improved.php` (470-496) and `compile-mo.php` (12-84), the main block of `update-pot.py` (115-133) and the printing in `check-translations.py` are left out; only the functions they call are modelled.
- Dedup in `update-pot.py`: Python's set order is left out; the result is sorted before it is written, so the order never shows.
- Lines 366, 381-384, 449 and 464-465 of `class-wpca-resources.php` begin with stray `365:`-style prefixes, which are not valid PHP. The model follows the statement each prefix precedes.
- `register_hooks` of the resources class, `merge_resources`, `cleanup_global_styles`, `get_loaded_styles`, `get_loaded_scripts` and `get_loaded_resources` are left out: they only register callbacks or read WordPress's global queue.
- Elementor: only `get_css_methods_count`, `count_css_methods_recursive`, `get_post_elementor_data` and `get_performance_recommendations` are modelled. The cache, font, icon, widget, breakpoint and import/export methods call Elementor or WordPress and compute nothing of their own.
- `wpca_apply_custom_styles` and `wpca_remove_admin_bar_items` in `wpca-core-functions.php` only emit CSS or call `$wp_admin_bar`, so they are left out.
- Theme templates: `register_default_templates` is the constructor's parameter. `export_current_as_template`, `get_categories`, `get_featured`, `get_default_template` and `get_preview_styles` return fixed or copied data and are left out.
- Performance: `class-wpca-performance.php` as shipped is not valid PHP. On lines 206, 207, 211, 212 and 489 a statement follows a `//` comment on the same line, so it is part of the comment; the braces then no longer balance, and the `try` opened at line 200 is closed before its `catch`. The model follows the statements evidently meant. `track_db_queries` (where those lines are), `display_query_stats` and the AJAX handlers are not modelled; `get_performance_stats` (line 489) is left out with the floating-point code.
- Menu customizer: `customize_admin_bar`, `apply_menu_groups` (which only logs) and `get_admin_menu_structure` are left out.
- Commented-out bodies are not modelled: `class-wpca-menu-manager.php:309-346` and `424-480`.
- The `wpca_register_extension`-style wrapper functions, the `do_action` calls and the `include_once` of an extension file are left out of the extension API.
- Error handler: `log_to_file` and the `WP_DEBUG` echo are left out.
- Cache: the database and file backends are calls into WordPress transients and the file system; the model records which backend a call is handed to. `clean_expired_cache` and `clean_expired_file_cache` walk the cache directory and are left out.
- Autoload: `spl_autoload_register`/`unregister`, `require_once` and `wpca_init_autoloader` are left out. A directory walk is a list of file entries.
- normalize_line_endings: the BOM handling is only a comment in the source (nothing strips a BOM), so the model writes the normalised content as it is.
- ExtensionApi.ExtensionRegistry.LoadExtensions: takes a list of arrays only. In the source a non-array element reaches `register_extension(array $extension)` (`class-wpca-extension-api.php:104`), whose type declaration raises a TypeError there, so the `is_array` test of line 105 never fails; the model does not represent that error.
- GenerateMo.GenerateMoFile, GenerateMoImproved.GenerateMoFile and GenerateMoImproved.UpdatePoFile: the translation directory is a map in which reading, writing and copying always succeed, so the `return false` branches taken when `file_get_contents`, `file_put_contents` or `copy` fail are not modelled (`generate_mo.php:51-54` and `69-72`; `generate_mo_improved.php:72-75`, `84-87`, `111-114`, `339-342` and `364-367`). A missing file is modelled.
- CleanAdminMenu.AdminMenuModule.ModifyAdminMenu: the global `$submenu` is not modelled. The `remove_submenu_page` calls of `menu-manager.php:60-62` are only recorded as the parent and child slugs SubmenuCallSplit gives, not applied to any submenu.
- MenuManager.StatisticsHidden: holds only for menus whose slugs PHP never reads as numbers (PlainKeys). The loose `in_array` of `get_menu_statistics` matches a hidden "010" against an item stored under the key 10 as well, so with such slugs the two hidden counts can exceed the hidden total (NumericSlugCountedTwice).
- WpcaSettings.SettingsStore.constructor: loads the settings with the corrected version check (see Findings); the load exactly as written is LoadSettingsAsWritten.

## Findings

| source | as written | input that shows it | evidently intended | confidence | as-written member | corrected member |
|---|---|---|---|---|---|---|
| wpcleanadmin/languages/generate_mo_improved.php:424 | the descriptor offsets start at 28+20N, but the strings are written from 28+16N on, right after the two descriptor tables | one message ("a", "b"): both descriptors point into the trailing zero words | the strings start after the descriptor tables and the hash words, where the offsets point | not executed | GenerateMoImproved.MoBodyCounterexample, GenerateMoImproved.MoBodyTablesAsWritten | GenerateMoImproved.WriteMoContent, GenerateMoImproved.MoContentDecodes |
| wpcleanadmin/languages/generate_mo_improved.php:394-404 | N is `count($entries)`, but only the string msgids are written | the entries `[42 => "x"]`, i.e. a msgid "42" that PHP made an integer key | N counts the messages actually written | not executed | GenerateMoImproved.MoBodyCountAsWritten | GenerateMoImproved.WriteMoContent, GenerateMoImproved.MoLayoutDecodes |
| wpcleanadmin/languages/generate_mo_improved.php:104 | `array_merge` renumbers integer keys, so numeric msgids are lost | a POT and a PO file that both have the msgid "404": the merge gives msgids 0 and 1 | a merge that keeps the keys (`array_replace`) | not executed | GenerateMoImproved.MergeRenumbers | GenerateMoImproved.ReplaceOverlay, GenerateMoImproved.UpdatePoMerge |
| wpcleanadmin/languages/generate_mo_improved.php:56-59 | the guards (lines 56-59, 168-180, 266-274, 316-319 and 382-390) test `function_exists` on `empty`, `echo` and `isset`, which are language constructs, so every guard fails | any call: update_po_file and generate_mo_file return false, parse_po_file returns [], generate_po_content returns only the header, generate_mo_content returns "" | guards that hold, so the bodies run | not executed | GenerateMoImproved.GuardsAsWritten, GenerateMoImproved.ParseAsWrittenEmpty, GenerateMoImproved.MoContentAsWrittenEmpty, GenerateMoImproved.UpdatePoAsWrittenFails | GenerateMoImproved.ParsePoFile, GenerateMoImproved.GeneratePoContent, GenerateMoImproved.MoContentDecodes |
| wpcleanadmin/languages/generate_mo.php:26-33 | both guards (lines 26-33 and 81-87) list `empty`, a language construct, so generate_mo_file returns false and parse_po_file returns [] | any call | guards that hold | not executed | GenerateMo.GuardsFail, GenerateMo.ParseAsWrittenEmpty, GenerateMo.MoFileNeverWrites | GenerateMo.ParseIntendedRender, GenerateMo.MoFileIntended |
| wpcleanadmin/languages/generate_mo.php:128-133 | an entry is stored only when both strings are closed, which never holds after a keyword line, so nothing is stored | a catalogue with one `msgid "a"` / `msgstr "b"` pair | each pair is stored when the next msgid starts or the input ends | not executed | GenerateMo.ParseNeverStores, GenerateMo.ParseRenderAsWritten | GenerateMo.ParseIntendedRender |
| update-pot.py:86-102 | the header f-string writes real line breaks inside the quoted fields | any run: the line after the first field's text is a lone `"` | each field on one line, ending in the two characters `\n` | not executed | UpdatePot.FieldLinesAsWritten, UpdatePot.PotHeaderAsWrittenBroken | UpdatePot.FieldLines, UpdatePot.HeaderLinesClosed, UpdatePot.PotLinesClosed, UpdatePot.GeneratePot |
| compile-mo.php:138-141 | each original's string is written right after its own descriptor, so the strings sit among the descriptor tables | the single message ("a", "b"): a descriptor points outside the file | descriptor tables first, then the string tables | not executed | CompileMo.MinimalMoCounterexample | CompileMo.MinimalMoIntendedDecodes, CompileMo.CompileRoundTrip |
| wpcleanadmin/includes/class-wpca-database-settings.php:188 | the loose `in_array` keeps a submitted boolean true as the frequency | `schedule_frequency => true` | a strict check, so true becomes "disabled" | not executed | DatabaseSettings.FrequencyAsWrittenTrue | DatabaseSettings.ValidateSettings, DatabaseSettings.FrequencyKept |
| wpcleanadmin/includes/class-wpca-login.php:259-292 | lockout_duration is read but never used; the counter always expires after 300 seconds | lockout_duration 600, a failure, then a login 301 seconds later | the counter lives for the configured lockout | not executed | Login.LockoutDurationIgnored, Login.LoginGuard.LogFailedLoginAsWritten | Login.LoginGuard.LogFailedLogin |
| wpcleanadmin/includes/class-wpca-resources.php:179-184 | `&&` binds tighter than `\|\|`, and the filter runs only in admin, so any valid handle whose tag lacks defer and async is deferred | an unlisted handle "jquery" with a plain tag | only a listed handle equal to its sanitised key whose tag has neither defer nor async is deferred | not executed | Resources.DeferListIgnoredInAdmin, Resources.ResourceManager.DeferNonCriticalJsAsWritten | Resources.ResourceManager.DeferNonCriticalJs, Resources.DeferIntendedMeans |
| wpcleanadmin/includes/class-wpca-resources.php:286-296 | the hook is sanitised (line 465) before generate_critical_css, so it never equals `index.php` or `edit.php` | page_hook `index.php`, which becomes `indexphp` | the dashboard and list sheets for those pages | not executed | Resources.SanitizedHookGetsDefault, Resources.DashboardRequestFinding, Resources.GeneratedCssInlined | Resources.IntendedCriticalCss |
| wpcleanadmin/includes/autoload.php:89-112 | `class-wpca-*` files get class names without the underscore, while autoload looks up only names starting "WPCA_" | the file `class-wpca-menu-manager.php`, keyed "WPCAMenuManager" | the map serves `WPCA_Menu_Manager` | not executed | Autoload.ClassMapNeverServesClassFiles | Autoload.FileClassFile, Autoload.IntendedMapServesClassFiles |
| wpcleanadmin/includes/autoload.php:139-144 | the dash insertion also puts a dash before the capital after "WPCA_" | `WPCA_Menu_Manager` is looked for in `class-wpca--menu_-manager.php` | `class-wpca-menu-manager.php` | not executed | Autoload.DoubleDash, Autoload.DynamicPathMisses | Autoload.ClassFileClass |
| wpcleanadmin/includes/class-wpca-settings.php:89-93 | `isset` is false for a null value, so a stored version of null is neither replaced nor saved | the stored option `['version' => null]` | the version is always brought up to the current one, as the comment at line 89 says | not executed | WpcaSettings.LoadedAsWrittenKeepsNull, WpcaSettings.LoadedAsWrittenNullVersion, WpcaSettings.LoadSettingsAsWritten | WpcaSettings.LoadedVersion, WpcaSettings.LoadSettings, WpcaSettings.SettingsStore.constructor |
