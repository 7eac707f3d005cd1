# Jake's resume editor: a verified model of its core

The editor keeps one resume (a header plus an ordered list of typed
sections) in a client-side store, renders it to LaTeX with Jake's
template, checks form input with a set of validation rules, and imports a
resume from a `.tex` file or from the plain text of a PDF. This Dafny
project models that core:

- `resume_model.dfy` (`ResumeModel`): the document: `Link`, `Header`, the
  five entry shapes, the `Entry` union, `Section` and `Resume`. It also
  defines `WellTyped`, the property that every entry has the shape its
  section's tag announces.
- `default_resume.dfy` (`DefaultResume`): the sample resume the store starts
  from.
- `store_updates.dfy` (`ResumeUpdates`): each store action as a function
  from the old resume to the new one, with frame, idempotence and
  well-typedness lemmas.
- `store.dfy` (`ResumeStore`): the store as a class with one mutable
  `resume` field, whose methods are the store's actions.
- `validation.dfy` (`Validation`): the form rules (date, phone, required
  fields, date order). It proves that comparing two `YYYY-MM` strings as text
  is the same as comparing them as dates.
- `generator.dfy` (`Generator`): `escapeLaTeX`, the date formatters and the
  rendering of the header, each section and the whole document. It proves
  that escaping is per character, always yields safe LaTeX, and can be undone.
- `js_string.dfy`, `regex_search.dfy`, `line_patterns.dfy`,
  `header_patterns.dfy`: the JavaScript string built-ins and every regular
  expression the parsers use. Each pattern is written out with JavaScript's
  matching order: leftmost start, lazy groups that do not cross a line
  terminator, greedy white-space runs and ASCII case folding under `/i`.
- `section_parsers.dfy` (`SectionParsers`): the four section parsers of the
  PDF import (experience, education, skills, custom) as loops over lines.
- `pdf_parser.dfy` (`PdfParser`): the PDF-text import. It covers header
  extraction, the heading scan, the slicing of the section bodies, the
  dispatch to the section parsers and the entry ids.
- `parser_examples.dfy` (`ParserExamples`): the experience parser applied, in
  proofs, to a three-line example, pattern by pattern.
- `latex_parser.dfy` (`LatexParser`): the `.tex` import (header commands and
  `\href` links).

Entry ids come from `crypto.randomUUID()` in the source. Here they are a
parameter `newId: nat -> string` plus a counter: the k-th entry created gets
`newId(first + k)`. The import methods return the counter they stop at.
Injectivity of `newId` stands in for the uniqueness of random UUIDs.

One thing the proofs show about the sample data: the sample header's phone
number starts with `+`, so it fails the phone rule, which does not strip
`+` (`DefaultResume.SampleHeader`, `Validation.PlusFailsPhone`).

## Model

| member | source | states |
|---|---|---|
| ResumeModel.SectionIds | src/lib/resume-model.ts:70-81 | the id list has one id per section, in section order |
| ResumeModel.EntryIds | src/lib/resume-model.ts:70-81 | the id list has one id per entry, in entry order, whatever the entry's shape |
| ResumeModel.Kinds | src/lib/resume-model.ts:63-68 | one section tag per section, in order |
| DefaultResume.SampleHeader | src/lib/resume-model.ts:89-98 | the sample header has a name of at least two characters and three links, and its phone does not pass the phone rule |
| DefaultResume.Exp1 | src/lib/resume-model.ts:105-118 | the first sample job has id `exp-1`, satisfies the experience rules (required fields, valid dates, start before end) and carries the given bullets |
| DefaultResume.Exp2 | src/lib/resume-model.ts:119-132 | the second sample job has id `exp-2`, satisfies the experience rules and carries the given bullets |
| DefaultResume.Exp3 | src/lib/resume-model.ts:133-146 | the third sample job has id `exp-3`, satisfies the experience rules and carries the given bullets |
| DefaultResume.Exp4 | src/lib/resume-model.ts:147-159 | the fourth sample job has id `exp-4`, satisfies the experience rules and carries the given bullets |
| DefaultResume.ExperienceSection | src/lib/resume-model.ts:100-161 | the sample experience section is well typed, with entry ids exp-1..exp-4 and valid dates throughout |
| DefaultResume.Edu1 | src/lib/resume-model.ts:167-177 | the sample school has id `edu-1`, satisfies the education rules and carries the given details |
| DefaultResume.EducationSection | src/lib/resume-model.ts:162-179 | the sample education section is well typed, with one entry `edu-1` |
| DefaultResume.Award1 | src/lib/resume-model.ts:185-193 | the first award has id `award-1`, a title, and valid or blank dates |
| DefaultResume.Award2 | src/lib/resume-model.ts:194-205 | the second award has id `award-2`, a title, valid or blank dates, and the given subtitle and bullets |
| DefaultResume.AwardsSection | src/lib/resume-model.ts:180-207 | the awards section is a well-typed custom section with entries award-1 and award-2 |
| DefaultResume.Cert1 | src/lib/resume-model.ts:213-221 | the first certification has id `cert-1`, a title, valid or blank dates and the given bullets |
| DefaultResume.Cert2 | src/lib/resume-model.ts:222-230 | the second certification has id `cert-2`, a title, valid or blank dates and the given bullets |
| DefaultResume.CertificationsSection | src/lib/resume-model.ts:208-232 | the certifications section is a well-typed custom section with entries cert-1 and cert-2 |
| DefaultResume.Skill1 | src/lib/resume-model.ts:238-242 | the first skills row has id `skill-1`, a category and at least one skill |
| DefaultResume.Skill2 | src/lib/resume-model.ts:243-256 | the second skills row has id `skill-2` and satisfies the skills rules |
| DefaultResume.Skill3 | src/lib/resume-model.ts:257-261 | the third skills row has id `skill-3` and satisfies the skills rules |
| DefaultResume.Skill4 | src/lib/resume-model.ts:262-266 | the fourth skills row has id `skill-4` and satisfies the skills rules |
| DefaultResume.SkillsSection | src/lib/resume-model.ts:233-268 | the skills section is well typed, with entries skill-1..skill-4 |
| DefaultResume.SampleAround | src/lib/resume-model.ts:88-270 | the sample resume, whatever its long texts, is well typed, has the sections experience, education, custom, custom, skills in that order, distinct section ids and entry ids, three links, and only valid or blank dates |
| DefaultResume.CreateDefaultResume | src/lib/resume-model.ts:88-270 | the sample resume is well typed, with sections experience, education, custom, custom, skills; its section ids and entry ids are distinct; it has three links and every date is valid or blank |
| DefaultResume.NewSample | src/lib/resume-model.ts:88-270 | the resume handed to the store is the sample built around its own texts |
| DefaultResume.SampleShape | src/lib/resume-model.ts:99-269 | five well-typed sections with valid dates, in that order, make a well-typed resume with that tag sequence |
| DefaultResume.SampleIds | src/lib/resume-model.ts:99-269 | the sample's section ids and its entry ids (in the order the sections list them) are pairwise distinct |
| DefaultResume.SampleIdsDistinct | src/lib/resume-model.ts:99-269 | the five sample section ids, and the thirteen sample entry ids, are pairwise distinct |
| DefaultResume.AllEntryIdsOfFive | src/lib/resume-model.ts:99-269 | the entry ids of five sections are their entry id lists concatenated in section order |
| ResumeUpdates.UpdateHeaderFields | src/store/resume.ts:42-48 | a header patch replaces exactly the fields it supplies and leaves the other fields and all sections alone |
| ResumeUpdates.UpdateHeaderIdempotent | src/store/resume.ts:42-48 | applying the same header patch twice equals applying it once |
| ResumeUpdates.UpdateHeaderEmpty | src/store/resume.ts:42-48 | an empty header patch changes nothing |
| ResumeUpdates.AddSectionAppends | src/store/resume.ts:50-56 | adding a section keeps the header and the old sections in order and puts the new section last |
| ResumeUpdates.AddSectionWellTyped | src/store/resume.ts:50-56 | adding a well-typed section to a well-typed resume keeps it well typed |
| ResumeUpdates.UpdateSectionFrame | src/store/resume.ts:58-66 | updating a section patches every section with that id and leaves the others, the header and the count alone |
| ResumeUpdates.UpdateSectionMissing | src/store/resume.ts:58-66 | updating an absent section id is a no-op |
| ResumeUpdates.UpdateSectionWellTyped | src/store/resume.ts:58-66 | a patch that touches neither the tag nor the entries keeps a resume well typed |
| ResumeUpdates.RemoveSectionMembers | src/store/resume.ts:68-74 | after removal a section is present exactly when it was present before and has a different id |
| ResumeUpdates.RemoveSectionGone | src/store/resume.ts:68-74 | after removal no section has the removed id |
| ResumeUpdates.RemoveSectionIdempotent | src/store/resume.ts:68-74 | removing the same id twice equals removing it once |
| ResumeUpdates.RemoveSectionSplits | src/store/resume.ts:68-74 | removal works piecewise: removing from front + back is removing from each |
| ResumeUpdates.RemoveSectionWellTyped | src/store/resume.ts:68-74 | removal keeps a resume well typed |
| ResumeUpdates.ReorderPermutationWellTyped | src/store/resume.ts:76-79 | reordering keeps the header, and a permutation of a well-typed section list stays well typed |
| ResumeUpdates.AddEntryFrame | src/store/resume.ts:81-91 | adding an entry appends it to every section with that id and leaves the others, the header and the count alone |
| ResumeUpdates.AddEntryMissing | src/store/resume.ts:81-91 | adding an entry to an absent section id is a no-op |
| ResumeUpdates.AddEntryWellTyped | src/store/resume.ts:81-91 | the result is well typed exactly when every targeted section's tag matches the entry's shape |
| ResumeUpdates.PatchEntryShape | src/store/resume.ts:101-103 | patching an entry keeps its shape, takes the patch's id when it has one, and is idempotent |
| ResumeUpdates.PatchEntrySharedFields | src/store/resume.ts:101-103 | a patch overwrites the entry's fields that it gives, also when the patch has another shape: then the id, the location, the dates and the bullets it gives replace the entry's, and the fields only the entry's shape has stay |
| ResumeUpdates.PatchEntries | src/store/resume.ts:101-103 | patching a list of entries keeps its length |
| ResumeUpdates.UpdateEntryFrame | src/store/resume.ts:93-108 | updating an entry patches only the entries with that id inside the sections with that id; everything else is unchanged |
| ResumeUpdates.UpdateEntryWellTyped | src/store/resume.ts:93-108 | updating an entry keeps a resume well typed |
| ResumeUpdates.RemoveEntryFrame | src/store/resume.ts:110-123 | removing an entry keeps the header and the other sections; a section with that id keeps its id, tag and title, and keeps every entry with another id exactly as often as before while dropping every entry with that id |
| ResumeUpdates.RemoveEntryKeepsOrder | src/store/resume.ts:110-123 | when one entry of the section has the id, removal leaves the entries before and after it, in their order |
| ResumeUpdates.RemoveEntryIdempotent | src/store/resume.ts:110-123 | removing the same entry twice equals removing it once |
| ResumeUpdates.RemoveEntryWellTyped | src/store/resume.ts:110-123 | removing an entry keeps a resume well typed |
| ResumeStore.Store.constructor | src/store/resume.ts:38 | the store starts from the sample resume built around some texts, so it is well typed, with tags experience, education, custom, custom, skills, distinct ids, three links and valid dates |
| ResumeStore.Store.SetResume | src/store/resume.ts:40 | the stored resume becomes the given one |
| ResumeStore.Store.UpdateHeader | src/store/resume.ts:42-48 | the stored resume becomes the header-patched one and its sections do not change |
| ResumeStore.Store.AddSection | src/store/resume.ts:50-56 | the stored resume gains the section at the end and stays well typed when the section is |
| ResumeStore.Store.UpdateSection | src/store/resume.ts:58-66 | the stored resume becomes the section-patched one, with the header and section count unchanged |
| ResumeStore.Store.RemoveSection | src/store/resume.ts:68-74 | the stored resume loses every section with that id and stays well typed |
| ResumeStore.Store.ReorderSections | src/store/resume.ts:76-79 | the stored sections become the given list; a permutation keeps the resume well typed |
| ResumeStore.Store.AddEntry | src/store/resume.ts:81-91 | the stored resume gains the entry in the targeted sections, with the header and section count unchanged |
| ResumeStore.Store.UpdateEntry | src/store/resume.ts:93-108 | the stored resume becomes the entry-patched one and stays well typed |
| ResumeStore.Store.RemoveEntry | src/store/resume.ts:110-123 | the stored resume loses the entry and stays well typed |
| ResumeStore.Store.Reset | src/store/resume.ts:125 | the stored resume is again the sample built around some texts, with the same shape, ids, links and dates as at the start |
| Validation.StripPhoneFiller | src/lib/validation.ts:20 | stripping keeps only characters of the input and removes every space, dash, parenthesis and dot |
| Validation.PlusFailsPhone | src/lib/validation.ts:18-24 | a phone number containing `+` never passes the phone rule |
| Validation.DecoratedDigitsPass | src/lib/validation.ts:18-24 | any decoration of 10 or 11 digits with spaces, dashes, parentheses and dots passes |
| Validation.StripAroundFiller | src/lib/validation.ts:20 | filler characters between two pieces vanish: stripping distributes over the pieces |
| Validation.Month | src/lib/validation.ts:12 | the month of a `YYYY-MM` date lies in 1..12 |
| Validation.DigitsOrder | src/lib/validation.ts:66 | on digit strings of one length, string order is numeric order |
| Validation.LexOrderIsChronological | src/lib/validation.ts:63-69 | for two `YYYY-MM` dates, `start <= end` as strings holds exactly when start is not later than end as (year, month) |
| Validation.LexAntisymmetric | src/lib/validation.ts:82-85 | string order is antisymmetric, so the date check accepts two different dates in at most one order |
| Validation.PresentSortsLast | src/lib/validation.ts:63-85 | a `YYYY-MM` date before "present" passes both date-order rules, and "present" before a `YYYY-MM` date fails both |
| Validation.ExperienceOrderCases | src/lib/validation.ts:63-69 | the experience date rule accepts any start when the end is "present" (in any case), and otherwise agrees with the education rule's string comparison |
| Generator.EscapeChar | src/lib/latex/template-jake/generator.ts:362-368 | escaping one character through the four passes gives a fixed replacement per character |
| Generator.EscapeOne | src/lib/latex/template-jake/generator.ts:362-368 | the four passes turn `\` into `\textbackslash\{\}`, a special into backslash plus itself, `~` and `^` into their commands, and keep every other character |
| Generator.EscapePlain | src/lib/latex/template-jake/generator.ts:362-368 | text without special characters is left unchanged |
| Generator.EscapeAppend | src/lib/latex/template-jake/generator.ts:362-368 | escaping distributes over concatenation |
| Generator.EscapeIsPerChar | src/lib/latex/template-jake/generator.ts:362-368 | the four global replace passes equal one per-character replacement |
| Generator.EscapeLength | src/lib/latex/template-jake/generator.ts:362-368 | escaping never shortens text |
| Generator.EscapeIsSafe | src/lib/latex/template-jake/generator.ts:362-368 | in escaped text every `&`, `%`, `$`, `#` and `_` is preceded by a backslash, and no raw `~` or `^` remains |
| Generator.EscapeRoundTrip | src/lib/latex/template-jake/generator.ts:362-368 | unescaping escaped text gives the original back, so escaping loses no information |
| Generator.ParseDigits | src/lib/latex/template-jake/generator.ts:321 | `parseInt` of a digit string is its decimal value |
| Generator.MonthLabel | src/lib/latex/template-jake/generator.ts:339-353 | the month lookup gives one of the twelve names or `undefined` for an index out of range |
| Generator.YearMonthLabel | src/lib/latex/template-jake/generator.ts:336-353 | a formatted `year-month` date contains a letter and is not "present" |
| Generator.SplitYearMonth | src/lib/latex/template-jake/generator.ts:306 | a `YYYY-MM` date splits at `-` into year and month |
| Generator.YearMonthLabelOfValid | src/lib/latex/template-jake/generator.ts:336-353 | a `YYYY-MM` date formats as the month name for its month followed by its year |
| Generator.FormatValidDate | src/lib/latex/template-jake/generator.ts:298-357 | on dates that pass the date rule both formatters agree with the month-name label |
| Generator.FormatDateIdempotent | src/lib/latex/template-jake/generator.ts:328-357 | formatting a formatted date changes nothing |
| Generator.FormatValidRange | src/lib/latex/template-jake/generator.ts:327-360 | the range of two valid dates is their labels joined by ` -- ` |
| Generator.FormatJanuary | src/lib/latex/template-jake/generator.ts:328-357 | `YYYY-01` formats as `Jan. YYYY` |
| Generator.FormatPresent | src/lib/latex/template-jake/generator.ts:298-333 | the range formatter capitalises "present" and the single-date formatter leaves it as is |
| Generator.ItemList | src/lib/latex/template-jake/generator.ts:176-195 | the bullet block is empty exactly when every bullet is blank |
| Generator.BlankLineIgnored | src/lib/latex/template-jake/generator.ts:188-191 | inserting a blank bullet anywhere does not change the output |
| Generator.ItemsAreKeptLines | src/lib/latex/template-jake/generator.ts:188-191 | one `\resumeItem` is emitted per non-blank bullet, in order, holding that bullet escaped |
| Generator.ProjectDates | src/lib/latex/template-jake/generator.ts:219-222 | a project shows a date range exactly when both dates are non-empty, and then it is their formatted range |
| Generator.ProjectTitle | src/lib/latex/template-jake/generator.ts:226-230 | the project title starts with the bold escaped name and is only that when there are no technologies |
| Generator.SkillsJoinEscaped | src/lib/latex/template-jake/generator.ts:247-251 | escaping each skill and joining with `, ` equals escaping the joined list |
| Generator.PlainSkills | src/lib/latex/template-jake/generator.ts:247-251 | skills with nothing to escape are emitted unchanged |
| Generator.GoAndRust | src/lib/latex/template-jake/generator.ts:247-251 | the skills Go and Rust render as `Go, Rust` |
| Generator.CustomDateSlot | src/lib/latex/template-jake/generator.ts:257-270 | a custom entry's right-hand slot is the location if set, else the date range if both dates are set, else the single start date, else empty |
| Generator.RenderEntries | src/lib/latex/template-jake/generator.ts:140-168 | one rendered block per entry |
| Generator.GenerateSection | src/lib/latex/template-jake/generator.ts:132-174 | a section renders exactly when it is well typed (the source throws on a mismatched entry) |
| Generator.LinkUrl | src/lib/latex/template-jake/generator.ts:113-115 | a link target starts with `http` and ends with the given url |
| Generator.LinkUrlIdempotent | src/lib/latex/template-jake/generator.ts:113-115 | adding the scheme to an already prefixed url changes nothing |
| Generator.LinkTexts | src/lib/latex/template-jake/generator.ts:111-117 | one `\href` per link |
| Generator.HeaderLinkSeparator | src/lib/latex/template-jake/generator.ts:120-129 | the header ends right after the email exactly when there are no links |
| Generator.SectionTexts | src/lib/latex/template-jake/generator.ts:105 | one rendered text per section |
| Generator.StackAppend | src/lib/latex/template-jake/generator.ts:105 | joining with a blank line: one more section adds a blank line and its text at the end |
| Generator.SectionTextsAppend | src/lib/latex/template-jake/generator.ts:105 | appending a section appends its rendering |
| Generator.AppendedSectionLast | src/lib/latex/template-jake/generator.ts:103-105 | adding a section to a resume appends its text after a blank line and changes nothing before it |
| Generator.DocumentBody | src/lib/latex/template-jake/generator.ts:101-107 | the body ends with `\end{document}` |
| Generator.Document | src/lib/latex/template-jake/generator.ts:16-108 | a document is produced exactly for a well-typed resume; it starts with the preamble and ends with `\end{document}` |
| JsString.IndexOf | src/lib/latex/parser.ts:469 | `indexOf` is -1 exactly when the character is absent, and otherwise the first position holding it |
| JsString.Trim | src/lib/latex/parser.ts:66-69 | trimmed text has no white space at either end and is no longer than the input |
| JsString.TrimStartSuffix | src/lib/latex/parser.ts:66-69 | trimming the start removes only white space, from the front |
| JsString.TrimEndPrefix | src/lib/latex/parser.ts:66-69 | trimming the end removes only white space, from the back |
| JsString.TrimEmpty | src/lib/latex/parser.ts:66-69 | a line trims to empty exactly when it is all white space, so the filter drops exactly those lines |
| JsString.TrimOfTrimmed | src/lib/latex/parser.ts:256-259 | trimming an already trimmed line changes nothing |
| JsString.Split | src/lib/latex/parser.ts:66-69 | `split` gives at least one piece, no piece contains the separator, and there are at least two pieces when the separator occurs |
| JsString.SplitJoin | src/lib/latex/parser.ts:187-195 | splitting a join gives back the pieces when none contains the separator |
| JsString.JoinSplit | src/lib/latex/parser.ts:187-195 | joining the pieces of a split gives back the text |
| JsString.Filter | src/lib/latex/parser.ts:66-69 | `filter` keeps only elements that satisfy the test and come from the input |
| JsString.FilterMembership | src/lib/latex/parser.ts:66-69 | an element survives `filter` exactly when it was there and satisfies the test |
| JsString.FilterCount | src/lib/latex/parser.ts:66-69 | `filter` keeps every copy of an element that passes the test and no copy of one that fails |
| JsString.FilterEmpty | src/lib/latex/parser.ts:475-479 | the filtered list is empty exactly when no element satisfies the test |
| RegexSearch.FirstFrom | src/lib/latex/parser.ts:36-43 | a search from a position finds the leftmost match there or later, and reports none only when nothing matches |
| RegexSearch.First | src/lib/latex/parser.ts:26 | `match` without `g` returns the leftmost match, and none exactly when no position matches |
| RegexSearch.LineStart | src/lib/latex/parser.ts:272-275 | a lazy `(.*?)` ending at a position starts at the earliest point with no line terminator in between |
| RegexSearch.WordAt | src/lib/latex/parser.ts:272-275 | an alternation of words under `/i` matches the first listed word present at the position, ignoring ASCII case |
| RegexSearch.IsWordOfIff | src/lib/latex/parser.ts:272-275 | a word is matched by the alternation exactly when it equals one listed word up to case |
| LinePatterns.WordEnd | src/lib/latex/parser.ts:272-275 | the `(words)$` search reports the leftmost position where a listed word ends the text, and none only when no position has one |
| LinePatterns.MonthYearAt | src/lib/latex/parser.ts:284-285 | `(Jan..Dec)\s+(\d{4})` at a position yields a month word found there and four digits found after it |
| LinePatterns.MonthYearEndAt | src/lib/latex/parser.ts:295-297 | with `$` the match must also end the text |
| LinePatterns.MonthYearTextShape | src/lib/latex/parser.ts:289-301 | a date the parser writes is a month word, a space and four digits |
| LinePatterns.CityNotRemote | src/lib/latex/parser.ts:384-387 | no education or custom city is `Remote` |
| LinePatterns.CityTrimmed | src/lib/latex/parser.ts:384-391 | a matched city is non-empty and has no surrounding white space |
| LinePatterns.WordSuffix | src/lib/latex/parser.ts:272-275 | `(.*?)(words)$` yields a listed word that ends the line and the text before it on that line |
| LinePatterns.WordEndIff | src/lib/latex/parser.ts:272-275 | the `(words)$` search succeeds exactly when the line ends with one of the words |
| LinePatterns.CitySuffix | src/lib/latex/parser.ts:272-279 | the city pattern yields a city ending the line and, for a one-line input, splits it into the company and the city |
| LinePatterns.EndsWithCityIff | src/lib/latex/parser.ts:321-323 | the city test holds exactly when the line ends with a city, ignoring case |
| LinePatterns.MatchRoleDate | src/lib/latex/parser.ts:283-286 | the role-date pattern yields a role that starts the line, a month-year start date and an end part that ends the line |
| LinePatterns.MatchBy | src/lib/latex/parser.ts:520 | the `by` pattern yields a title and a non-empty issuer, neither crossing a line terminator |
| LinePatterns.MatchPipeWord | src/lib/latex/parser.ts:545-547 | the pipe pattern yields the text before `|` and a listed word after it |
| LinePatterns.MatchPipeCity | src/lib/latex/parser.ts:545-550 | the pipe-city pattern yields the title and one of the seven cities |
| LinePatterns.MatchTrailingDate | src/lib/latex/parser.ts:536-541 | the trailing-date pattern yields the text before a closing month word and four-digit year |
| LinePatterns.RemoveSuffix | src/lib/latex/parser.ts:532 | removing a suffix drops it when the text ends with it and otherwise changes nothing |
| LinePatterns.StripBullet | src/lib/latex/parser.ts:317 | stripping a bullet removes the glyph and the spaces after it, and leaves a non-bullet line alone |
| LinePatterns.MarkerOf | src/lib/latex/parser.ts:170-182 | the heading of a line is the first marker in table order whose pattern it matches, and none exactly when no marker matches |
| LinePatterns.MarkerIndex | src/lib/latex/parser.ts:143-162 | every marker occurs in the marker table |
| HeaderPatterns.BracedRun | src/lib/latex/parser.ts:26 | `[^}]+}` from a position ends at the first `}` after at least one other character |
| HeaderPatterns.CommandTailIff | src/lib/latex/parser.ts:26 | the command pattern matches at a position exactly when the command, a non-empty argument without `}` and a `}` are there |
| HeaderPatterns.CommandArg | src/lib/latex/parser.ts:26-33 | a command's argument is the one of its leftmost occurrence, and none is found only when it occurs nowhere |
| HeaderPatterns.HrefTailIff | src/lib/latex/parser.ts:36 | the link pattern matches at a position exactly when `\href{url}{caption}` with non-empty parts is there |
| HeaderPatterns.Hrefs | src/lib/latex/parser.ts:36-43 | every collected link occurs in the text, and the list is empty exactly when no link occurs |
| HeaderPatterns.LastDot | src/lib/latex/parser.ts:86 | the greedy domain backtracks to the last dot followed by two letters |
| HeaderPatterns.EmailAtSlice | src/lib/latex/parser.ts:85-90 | a match of the email pattern is an email address contained in the text |
| HeaderPatterns.Email | src/lib/latex/parser.ts:85-90 | the email found is an address occurring in the text, taken at the leftmost position where the pattern matches; none exactly when it matches nowhere |
| HeaderPatterns.EmailFound | src/lib/latex/parser.ts:85-90 | if an address occurs anywhere, one is found |
| HeaderPatterns.PhoneTail | src/lib/latex/parser.ts:93 | a phone match is an optional `+` and at least ten digits |
| HeaderPatterns.Phone | src/lib/latex/parser.ts:92-97 | the phone found is an optional `+` and ten or more digits, taken at the leftmost position where the pattern matches; none exactly when it matches nowhere, and so only when no ten digits in a row occur |
| HeaderPatterns.Handle | src/lib/latex/parser.ts:104 | a profile handle is a run of letters, digits and dashes right after the leftmost occurrence of the host prefix (in any case) that is followed by one; none exactly when no occurrence is |
| SectionParsers.TrimAll | src/lib/latex/parser.ts:256-259 | trimming every line keeps the count and trims each |
| SectionParsers.NormalizeLines | src/lib/latex/parser.ts:66-69 | every normalized line is non-empty, trimmed and free of `\n` |
| SectionParsers.NormalizeJoin | src/lib/latex/parser.ts:194-195 | re-normalizing the joined body of normalized lines gives the same lines, so each section parser sees exactly its body lines |
| SectionParsers.NormalizeBlank | src/lib/latex/parser.ts:66-69 | a blank single line normalizes to nothing |
| SectionParsers.TrimAllLines | src/lib/latex/parser.ts:256-259 | normalized lines survive trimming unchanged |
| SectionParsers.Scan | src/lib/latex/parser.ts:304-340 | the bullet scan never moves backwards or past the end |
| SectionParsers.FlushBullets | src/lib/latex/parser.ts:313-318 | flushing the current bullet keeps every collected bullet trimmed and non-empty |
| SectionParsers.ScanBullets | src/lib/latex/parser.ts:304-340 | every collected bullet is non-empty and trimmed |
| SectionParsers.ScanCount | src/lib/latex/parser.ts:304-340 | the scan yields the bullets already collected, the open one, and one per bullet line it consumes; the custom scan's double push adds at most one more |
| SectionParsers.ScanStops | src/lib/latex/parser.ts:304-340 | the scan stops only at the end, at a non-bullet line with no open bullet, or at a line that starts the next entry; it passes no such line |
| SectionParsers.ScanRepeat | src/lib/latex/parser.ts:588-593 | the custom scan pushes the open bullet twice when the next entry begins, and the other scans once |
| SectionParsers.CollectBullets | src/lib/latex/parser.ts:304-340 | the bullet loop computes the scan's bullets and stop line |
| SectionParsers.EndDate | src/lib/latex/parser.ts:291-301 | the end date is "Present", or the month-year found in the end part |
| SectionParsers.ReadExperienceHead | src/lib/latex/parser.ts:272-301 | an entry head is read exactly when the line ends with a city (or `Remote`) and the next line has the role-date shape |
| SectionParsers.ReadExperience | src/lib/latex/parser.ts:262-355 | the loop body, head lines then bullet loop, computes exactly the step `ExperienceStep` |
| SectionParsers.ExperienceStep | src/lib/latex/parser.ts:262-355 | a step reads at most one entry, with the given id and the parsed shape, and always moves forward |
| SectionParsers.ExperienceStepReads | src/lib/latex/parser.ts:262-355 | an entry is read exactly when the line is not a bullet, has a next line, ends with a city and the next line matches the role-date pattern; its company, role, city and dates are read from those two lines, its bullets are those the bullet loop collects after them and the loop goes on where that loop stops; any other line is skipped |
| SectionParsers.ExperienceFrom | src/lib/latex/parser.ts:262-355 | the loop from a line on reads at most one entry per two remaining lines |
| SectionParsers.ExperienceFromStep | src/lib/latex/parser.ts:262-355 | the entries from a line are the entry read there, if any, followed by the entries from where that step stops |
| SectionParsers.ExperienceFromParsed | src/lib/latex/parser.ts:262-355 | every entry read has the parsed shape and the next id in order |
| SectionParsers.ExperienceEntries | src/lib/latex/parser.ts:262-355 | the loop returns exactly the entries of the steps from the first line, with consecutive ids and the parsed shape, at most half as many as lines |
| SectionParsers.ParseExperience | src/lib/latex/parser.ts:251-360 | the same over the trimmed non-empty lines of the section text |
| SectionParsers.EducationNotRemote | src/lib/latex/parser.ts:384-448 | a parsed school's location is never `Remote` and its dates are empty |
| SectionParsers.ReadEducation | src/lib/latex/parser.ts:370-453 | the loop body, the city and degree lines then the bullet loop, computes exactly the step `EducationStep` |
| SectionParsers.EducationStep | src/lib/latex/parser.ts:370-453 | a step reads at most one school, with the given id and the parsed shape, and always moves forward |
| SectionParsers.EducationStepReads | src/lib/latex/parser.ts:370-453 | a school is read exactly when the line is not a bullet, not the word `Awards` or `Certifications`, ends with one of the seven cities and is followed by a line that is not a bullet; its institution is the trimmed text before the city, its location the city, its degree the next line, its dates empty and its details the bullet loop's, and the loop goes on where that loop stops; any other line is skipped |
| SectionParsers.EducationFrom | src/lib/latex/parser.ts:370-453 | the loop from a line on reads at most one school per two remaining lines |
| SectionParsers.EducationFromStep | src/lib/latex/parser.ts:370-453 | the schools from a line are the one read there, if any, followed by those from where that step stops |
| SectionParsers.EducationFromParsed | src/lib/latex/parser.ts:370-453 | every school read has the parsed shape and the next id in order |
| SectionParsers.EducationEntries | src/lib/latex/parser.ts:370-453 | the loop returns exactly the schools of the steps from the first line, with consecutive ids and the parsed shape, at most half as many as lines |
| SectionParsers.ParseEducation | src/lib/latex/parser.ts:362-458 | the same over the trimmed non-empty lines of the section text |
| SectionParsers.SkillItems | src/lib/latex/parser.ts:474-477 | every skill is non-empty and trimmed |
| SectionParsers.SkillLine | src/lib/latex/parser.ts:468-485 | a skills line needs a colon; it gives a trimmed category without a colon (non-empty for a trimmed line) and at least one skill |
| SectionParsers.JoinTrimmed | src/lib/latex/parser.ts:474-477 | joining trimmed non-empty pieces gives a trimmed non-empty text |
| SectionParsers.TrimSpaced | src/lib/latex/parser.ts:476 | trimming one leading space off a trimmed piece restores it |
| SectionParsers.JoinPieces | src/lib/latex/parser.ts:475 | splitting at `,` the join with `, ` gives the first skill then the others with a leading space |
| SectionParsers.TrimPieces | src/lib/latex/parser.ts:476 | trimming those pieces gives the skills back |
| SectionParsers.SkillItemsOfJoin | src/lib/latex/parser.ts:474-477 | parsing skills joined with `, ` gives the skills back |
| SectionParsers.ColonAfter | src/lib/latex/parser.ts:469-472 | the colon found is the one after the category, and the two substrings are the category and the rest |
| SectionParsers.SkillLineRoundTrip | src/lib/latex/parser.ts:467-485 | a line written as `category: a, b, c` parses back to that category and those skills |
| SectionParsers.SkillRows | src/lib/latex/parser.ts:467-485 | at most one row per line |
| SectionParsers.SkillRowsFromLines | src/lib/latex/parser.ts:467-485 | every row comes from some line |
| SectionParsers.SkillRowsRoundTrip | src/lib/latex/parser.ts:467-485 | lines written from rows parse back to exactly those rows |
| SectionParsers.SkillRowsSnoc | src/lib/latex/parser.ts:467-485 | rows of one more line are the old rows plus that line's row, if it has one |
| SectionParsers.SkillsOf | src/lib/latex/parser.ts:480-484 | one skills entry per row, with consecutive ids |
| SectionParsers.SkillsOfSnoc | src/lib/latex/parser.ts:480-484 | one more row adds one entry with the next id |
| SectionParsers.ReadSkillLine | src/lib/latex/parser.ts:468-485 | one loop step extends the entries to those of one more line |
| SectionParsers.SkillsEntries | src/lib/latex/parser.ts:467-487 | the loop computes the entries of every parsable line, in order |
| SectionParsers.ParseSkills | src/lib/latex/parser.ts:460-490 | the same for the section text after normalization |
| SectionParsers.ReadCustomHeading | src/lib/latex/parser.ts:514-561 | the date is the closing month-year or empty; a `by` line gives the trimmed title before `by`, no location and the `by` text (without the date) as subtitle; otherwise the title and location come from the pipe pattern, else from a closing city, else the whole undated line is the title; the location is empty or a city |
| SectionParsers.ReadCustom | src/lib/latex/parser.ts:500-620 | the loop body, the heading then the bullet loop, computes exactly the step `CustomStep` |
| SectionParsers.CustomStep | src/lib/latex/parser.ts:500-620 | a step reads at most one entry, with the given id and the parsed shape, and always moves forward |
| SectionParsers.CustomStepReads | src/lib/latex/parser.ts:500-620 | a bullet line is skipped; any other line is a heading whose bullet loop runs, and it yields an entry exactly when the heading's title is longer than two characters; the entry's title, subtitle, location and end date are the heading's, its start date empty, its bullets the loop's, and the loop goes on where the bullet loop stops |
| SectionParsers.CustomFrom | src/lib/latex/parser.ts:500-620 | the loop from a line on reads at most one entry per remaining line |
| SectionParsers.CustomFromStep | src/lib/latex/parser.ts:500-620 | the entries from a line are the entry read there, if any, followed by those from where that step stops |
| SectionParsers.CustomFromParsed | src/lib/latex/parser.ts:500-620 | every entry read has the parsed shape and the next id in order |
| SectionParsers.CustomEntries | src/lib/latex/parser.ts:500-620 | the loop returns exactly the entries of the steps from the first line, with consecutive ids and the parsed shape, at most one per line |
| SectionParsers.ParseCustom | src/lib/latex/parser.ts:492-624 | the same over the trimmed non-empty lines of the section text |
| ParserExamples.CompanyLine | src/lib/latex/parser.ts:272-279 | on "Acme Corp Mumbai" the city pattern gives the company text "Acme Corp " and the city "Mumbai" |
| ParserExamples.RoleLine | src/lib/latex/parser.ts:283-286 | on "Engineer Jan 2020 – Present" the role-date pattern gives the role "Engineer ", the start Jan 2020 and the end part "Present" |
| ParserExamples.HeadExample | src/lib/latex/parser.ts:272-301 | those two lines give the company "Acme Corp", the role "Engineer", the location "Mumbai", the start "Jan 2020" and the end "Present" |
| ParserExamples.BulletScan | src/lib/latex/parser.ts:304-340 | after them the bullet loop collects the one bullet "Built thing" and stops at the end |
| ParserExamples.ExperienceExample | src/lib/latex/parser.ts:262-355 | the three lines give exactly one entry: Acme Corp, Engineer, Mumbai, Jan 2020 to Present, with the bullet "Built thing" |
| ParserExamples.ParseExperienceExample | src/lib/latex/parser.ts:251-360 | the same for the section text made of those three lines |
| LatexParser.ReadCommand | src/lib/latex/parser.ts:26-33 | a header field is the argument of the leftmost command, or stays empty when the command does not occur |
| LatexParser.ReadLinks | src/lib/latex/parser.ts:36-43 | the `exec` loop collects exactly the non-overlapping links from left to right |
| LatexParser.ParseLatexToResume | src/lib/latex/parser.ts:14-47 | name, phone and email come from their leftmost commands, the links are all `\href`s in order, and no sections are read |
| PdfParser.LinkLabelsIn | src/lib/latex/parser.ts:103-135 | the link labels are exactly the three platform words that occur in the text, in table order |
| PdfParser.ProfileUrlShape | src/lib/latex/parser.ts:104-127 | a profile url is the base followed by the handle after the leftmost occurrence of the host that has one, or by the placeholder exactly when no occurrence has one |
| PdfParser.LinkIf | src/lib/latex/parser.ts:103-135 | a platform link is added exactly when its word occurs |
| PdfParser.ProfileLink | src/lib/latex/parser.ts:104-127 | the profile link has the platform label and the profile url |
| PdfParser.ExtractLinks | src/lib/latex/parser.ts:99-137 | the links are LinkedIn, GitHub and Portfolio Website, each present exactly when its word occurs, with a found handle or the placeholder |
| PdfParser.FindEmail | src/lib/latex/parser.ts:84-90 | the email is the leftmost match of the email pattern, or empty exactly when there is none |
| PdfParser.FindPhone | src/lib/latex/parser.ts:92-97 | the phone is the leftmost match of the phone pattern, or empty when there is none, and non-empty whenever ten digits in a row occur |
| PdfParser.ExtractHeader | src/lib/latex/parser.ts:71-137 | the name is the first line exactly when it is name-like (else empty); the email and phone are the leftmost matches (else empty); one link per platform word that occurs, in order |
| PdfParser.Headings | src/lib/latex/parser.ts:170-185 | each heading lies on a line whose first matching marker it records, and headings appear in increasing line order |
| PdfParser.HeadingsComplete | src/lib/latex/parser.ts:170-182 | every line that matches a marker is a heading |
| PdfParser.HeadingsNone | src/lib/latex/parser.ts:170-182 | a text with no marker line has no headings |
| PdfParser.FirstMarker | src/lib/latex/parser.ts:171-180 | the inner `for … break` loop finds the line's first matching marker |
| PdfParser.FindHeadings | src/lib/latex/parser.ts:170-185 | the `forEach` loop computes the headings |
| PdfParser.Slice | src/lib/latex/parser.ts:193 | `slice` returns consecutive elements of the input |
| PdfParser.BodyBetween | src/lib/latex/parser.ts:188-195 | a section's body is the lines strictly between its heading and the next one (or the end), and none of them is a heading |
| PdfParser.BodiesDisjoint | src/lib/latex/parser.ts:188-195 | the bodies of two sections are disjoint ranges, in order |
| PdfParser.SectionShape | src/lib/latex/parser.ts:197-245 | every marker but Projects maps to a section id, title and tag; none maps to the projects tag |
| PdfParser.Ids | src/lib/latex/parser.ts:342-350 | ids from a range of the counter, in order |
| PdfParser.IdsAppend | src/lib/latex/parser.ts:342-350 | consecutive ranges of ids concatenate |
| PdfParser.IdsDistinct | src/lib/latex/parser.ts:343 | an injective id source gives distinct ids |
| PdfParser.AllEntryIdsSnoc | src/lib/latex/parser.ts:197-245 | the entry ids of one more section are the old ones followed by that section's |
| PdfParser.ExperienceItems | src/lib/latex/parser.ts:197-205 | experience entries become section items one for one |
| PdfParser.EducationItems | src/lib/latex/parser.ts:206-215 | education entries become section items one for one |
| PdfParser.SkillsItems | src/lib/latex/parser.ts:216-225 | skills entries become section items one for one |
| PdfParser.CustomItems | src/lib/latex/parser.ts:226-245 | custom entries become section items one for one |
| PdfParser.Emit | src/lib/latex/parser.ts:197-245 | a section is pushed exactly when it has entries, with the marker's id, title and tag |
| PdfParser.ExperienceSection | src/lib/latex/parser.ts:197-205 | the items are exactly the experience parser's entries of the body, with the experience shape and consecutive ids, at most half as many as body lines |
| PdfParser.EducationSection | src/lib/latex/parser.ts:206-215 | the items are exactly the education parser's schools of the body, with the education shape and consecutive ids, at most half as many as body lines |
| PdfParser.SkillsSection | src/lib/latex/parser.ts:216-225 | skills items are the entries of the body's skills lines |
| PdfParser.CustomSection | src/lib/latex/parser.ts:226-245 | the items are exactly the custom parser's entries of the body, with the custom shape and consecutive ids, at most one per body line |
| PdfParser.CustomItemIds | src/lib/latex/parser.ts:226-245 | custom entries numbered from `first` become custom items, the j-th with id `newId(first + j)` |
| PdfParser.ParseSection | src/lib/latex/parser.ts:197-245 | the section and counter are `SectionStep`'s: the section is the marker's parser's items of the body under the marker's id, title and tag; it exists exactly when the marker is not Projects and the body has entries; ids advance by the entry count |
| PdfParser.SectionOf | src/lib/latex/parser.ts:197-245 | a section is made exactly when the marker is not Projects and there are items, and it holds those items under the marker's id, title and tag |
| PdfParser.SkillsIds | src/lib/latex/parser.ts:216-225 | skills items carry the shape and consecutive ids |
| PdfParser.BuildSections | src/lib/latex/parser.ts:188-245 | the loop computes `SectionsFrom`: in heading order, each heading's section of the lines up to the next heading, kept when it has entries; at most one per heading, entry ids consecutive across sections |
| PdfParser.SectionsFromStep | src/lib/latex/parser.ts:188-245 | one heading further: the section `HeadingSection` gives for it, if any, is appended to those kept and the counter moves past its entries |
| PdfParser.KeptSection | src/lib/latex/parser.ts:197-245 | keeping a section whose entries take the next ids keeps the entry ids of all sections one run of the counter |
| PdfParser.ParsePdfTextToResume | src/lib/latex/parser.ts:55-248 | the header as `IsPdfHeader` says; the sections are exactly `SectionsFrom` over the headings of the normalized lines; the resume is well typed; entry ids are consecutive |
| PdfParser.ImportedWellTyped | src/lib/latex/parser.ts:197-245 | a resume whose sections all come from the import is well typed |
| PdfParser.ImportedIdsDistinct | src/lib/latex/parser.ts:197-245 | with an injective id source all imported entry ids are distinct |

## Left out

- `parsePdfToText` (src/lib/latex/parser.ts:626-643) posts the file to a
  server and reads the reply. That is network I/O, so it is not part of this
  model; the import starts from the extracted text.
- Persistence: the store's `persist` middleware (local storage under
  `jake-resume-storage`) and its re-hydration are I/O.
- The `console.log` calls in the parsers and in `generateCustom` are output
  only.
- Ids: `crypto.randomUUID()` is randomness, modelled as the `newId`
  parameter and a counter.
- Strings are sequences of Unicode scalar values. JavaScript measures and
  orders UTF-16 code units. The two agree on the text the patterns and rules
  look at (ASCII letters, digits, `•`), but lengths such as the name limits
  3 < n < 50 count code points here.
- Case folding (`/i`, `toLowerCase`, `toUpperCase`) is ASCII only. That is
  exact for every pattern and literal compared here, but `toUpperCase` of a
  section title with non-ASCII letters is not modelled.
- `Validation`: zod's email and url checks (validation.ts:27-37) are
  library code. They are not part of this model, and `ValidHeader` leaves the
  email rule out. The schema objects' error messages and paths are not
  modelled.
- `ResumeUpdates`: a patch is one `Option` per field. A patch that sets a
  field to `undefined` explicitly (TypeScript allows it for optional fields)
  is not representable.
- `ResumeUpdates.PatchEntry`: a patch of another shape overwrites the id and the fields the
  two shapes share; the fields it has that the entry's shape lacks (a
  `company` put on an education entry, say) are not added, because each
  entry shape is a record with its own fields here.
- `ResumeStore.Store.constructor`: states that the stored resume is the sample built around
  some texts, with the sample's shape, ids, links and dates, not that those
  texts are the sample's own bullet and detail strings; that exact value is
  `DefaultResume.CreateDefaultResume`. Stating it on the class's field puts
  every long literal text into the proof, which does not fit the solver's
  resource limit.
- `ResumeStore.Store.Reset`: the same as for the constructor.
- `ResumeUpdates.UpdateSectionWellTyped`: covers only patches that leave the tag and the
  entries alone; a patch that changes them may produce an ill-typed
  resume, as in the source.
- `Generator.MonthLabel`: the month lookup is total: a month outside 1..12 gives the
  text `undefined`, as the template literal would; `parseInt` is modelled
  only on text without ASCII letters (the only place it is called).
- `PdfParser.FindHeadings`: the `sort` of the heading positions
  (parser.ts:185) is not modelled as a sort. The headings are pushed in
  increasing line order, so the sort leaves them as they are; `Headings`
  proves that order instead.
- Repeated headings (two `Experience` lines, say) produce two sections with
  the same id (`experience`), as in the source. No lemma claims distinct
  section ids for an import.
- The three bullet loops of the section parsers are modelled as one scan,
  `SectionParsers.CollectBullets`, with the next-entry test and the double
  push as parameters.
- The custom bullet loop pushes the open bullet twice when it meets the next
  entry (parser.ts:588-593, then 606-608). This is modelled as written
  (`SectionParsers.ScanRepeat`).
- `PdfParser.ParsePdfTextToResume` and `LatexParser.ParseLatexToResume`:
  the source returns `Partial<Resume>`, but both always fill in every field,
  so they return a full `Resume` here.
- No lemma relates `generateLatex` and `parseLatexToResume`: the generator
  writes the header with `\textbf{...}`, `\small` and `mailto:` links, not the
  `\name`/`\phone`/`\email` commands the LaTeX import reads, so a round trip
  does not hold.
