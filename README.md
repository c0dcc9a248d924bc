# Lesson playground pipeline, modelled in Dafny

This project models the lesson-playground pipeline of `scripts/generate-playgrounds.py`.
The script walks one section directory of Markdown/MDX lessons. It picks the lessons that
have no interactive Sandpack playground yet. For each of them it asks a language model
for a playground, with a bounded number of attempts. It extracts a complete
`<Sandpack … />` block from the answer and appends that block to the lesson file. It
counts the successes and the failures.

The project also models the pure part of `scripts/youtube-ideas.py`:
- the code-fence trim of the model's answer;
- `decode_unicode_in_object`, which walks a parsed JSON value and decodes the escape
  sequences in every string it holds.

Modules, following the structure of the scripts:

- `Wrappers`: `Option`.
- `Text`: the Python string operations used, over `string`.
  - Substring search (`in`, `find`), `startswith`/`endswith`.
  - `str.strip()`, with Python's `isspace` set.
  - `split`/`join` on one character.
- `Lessons`:
  - `SECTIONS`, `has_playground`, `get_lesson_title` and `get_prompt`.
  - The lesson title follows the `re.MULTILINE` pattern `^#+ (.+)$` line by line.
- `Extraction`: `extract_sandpack_block`, modelled exactly.
  - The two fence substitutions are both modelled, including the greedy `\s*$` that backs
    off to the last line end.
  - Each of the two patterns is searched leftmost-first, with the lazy `[\s\S]*?/>`.
  - Then the `endswith` check, the heading put in front, and the blank line.
- `Generation`: `generate_playground`.
  - The model client is a function of the request and of the number of calls made before
    it, so each call may get a different reply.
  - A client exception and a reply without text are one failure outcome.
  - The retry loop is the method `Attempts`. It is proved equal to the functions
    `FirstBlock` and `CallsMade`.
- `Files`: the section directory, as a sequence of (name, content) lessons in listing
  order.
  - `Files.Pages` is a class whose `lessons` field the append changes in place.
- `LessonSelection`: how `main` chooses the lessons it processes.
  - The `*.mdx` files not starting with `_`, sorted by name.
  - Only those without a playground, cut to the limit.
- `Driver`: `main` after argument parsing.
  - The API key, section and directory checks.
  - The per-lesson loop, with an append on success and the counters.
  - The method `RunSection` is proved equal to the function `Process` over the selection.
- `Ideas`: the fence trim and `decode_unicode_in_object`. The `unicode-escape` codec is an
  opaque partial function.

Facts proved about the code as written:

- **The `endswith("/>")` check is dead.** The check in `extract_sandpack_block` (line 91)
  never rejects a match, because a match always ends with the `/>` that the lazy pattern
  stops at. So an answer is rejected only when the cleaned text has no `<Sandpack` with a
  `/>` somewhere after it. The match may end at a `/>` inside the generated code.
- **The second completeness check is dead too.** The check in `generate_playground`
  (line 116) accepts every block the extraction returns.
- **`filename` is unused.** The `filename` argument of `get_prompt` has no effect on the
  prompt.
- **Every limit `<= 0` means no cap.** `--limit` accepts any integer, and only a positive
  value cuts the list of lessons.

## Model

| member | source | states |
|---|---|---|
| Text.StartsWith | scripts/generate-playgrounds.py:93 | Python's `s.startswith(p)`: `p` is a prefix of `s`, defined by its body; also used for `youtube-ideas.py:95` (see `TrimUnfenced`, `TrimFenced`) |
| Text.EndsWith | scripts/generate-playgrounds.py:91 | Python's `s.endswith(p)`: `p` is a suffix of `s`, defined by its body; also used at line 116 (see `AcceptMatch`, `MatchEnds`) |
| Text.Find | scripts/generate-playgrounds.py:27 | the first position at or after `from` where the pattern occurs, and no earlier one; none exactly when it occurs nowhere from there |
| Text.Contains | scripts/generate-playgrounds.py:27 | Python's `p in s`: true exactly when `p` occurs at some position of `s` |
| Text.IsSpace | scripts/generate-playgrounds.py:81 | Python's `str.isspace()` set, the characters `strip()` removes and `\s` matches; defined by its body, used by `SkipSpaces`, `Strip` and `CloseFenceEnd` |
| Text.SkipSpaces | scripts/generate-playgrounds.py:81 | the run of whitespace from `i` is maximal: all of it is whitespace and the next character is not |
| Text.SkipSpacesBack | scripts/generate-playgrounds.py:81 | the run of whitespace ending at `j` is maximal, and does not go below `lo` |
| Text.Strip | scripts/generate-playgrounds.py:81 | `strip()` gives a slice of the input with only whitespace around it, and it neither starts nor ends with whitespace |
| Text.StripUnchanged | scripts/generate-playgrounds.py:81 | text with no whitespace at either end is its own `strip()` |
| Text.Join | scripts/youtube-ideas.py:96 | `'\n'.join(parts)`, defined by its body; `Split` and `SplitJoin` state that it undoes and is undone by `split` |
| Text.Split | scripts/youtube-ideas.py:96 | `split('\n')` gives at least one part, no part holds the separator, and joining the parts gives the input back |
| Text.SplitJoin | scripts/youtube-ideas.py:96 | splitting joined parts that hold no separator gives exactly those parts back (the other direction of the round trip) |
| Text.JoinSnoc | scripts/youtube-ideas.py:96 | joining one more part adds the separator and that part at the end |
| Text.PartOccurs | scripts/generate-playgrounds.py:47-74 | every piece of an f-string occurs in the concatenation, after the pieces before it |
| Lessons.Sections | scripts/generate-playgrounds.py:16-23 | `SECTIONS`: the six sections and their templates, a constant; `SectionTemplates` states the templates used, and `Driver.RunSection` checks membership in it and looks the template up |
| Lessons.SectionTemplates | scripts/generate-playgrounds.py:16-23 | every section maps to `vanilla`, `vanilla-ts` or `react`, and only the `react` section maps to `react` |
| Lessons.HasPlayground | scripts/generate-playgrounds.py:26-27 | a lesson has a playground exactly when the Sandpack tag or the playground heading occurs in it |
| Lessons.LeadingHashes | scripts/generate-playgrounds.py:31 | the maximal run of `#` that a line starts with |
| Lessons.HeadingText | scripts/generate-playgrounds.py:31 | the capture of `^#+ (.+)$` on one line, defined by its body; `HeadingTextIff` states which lines match and what they capture |
| Lessons.HeadingTextIff | scripts/generate-playgrounds.py:31 | a line matches `^#+ (.+)$` with capture `t` exactly when it is one or more `#`, a space and a non-empty `t` |
| Lessons.FirstHeading | scripts/generate-playgrounds.py:31 | the index of the first heading line, with no heading line before it; none exactly when no line is a heading |
| Lessons.LessonTitle | scripts/generate-playgrounds.py:30-32 | the title is the text of the first heading line, or the fallback `урок` when there is no heading line; it is never empty |
| Lessons.Fragment | scripts/generate-playgrounds.py:38 | the quoted fragment is the prefix of the lesson of length min(length, 2000) |
| Lessons.EntryFile | scripts/generate-playgrounds.py:40-45 | the entry file is `/App.tsx` exactly when the template is `react`, and `/index.html` otherwise |
| Lessons.FileDescription | scripts/generate-playgrounds.py:41-45 | the first prompt rule, picked by the template like the entry file, defined by its body; `Prompt` quotes it |
| Lessons.Prompt | scripts/generate-playgrounds.py:35-74 | the prompt contains the lesson title, the section, the fragment, the template and the entry file |
| Lessons.PromptIgnoresFilename | scripts/generate-playgrounds.py:35 | the prompt is the same whatever `filename` is passed |
| Extraction.OpenFenceLength | scripts/generate-playgrounds.py:79 | an opening fence at the start is three backticks, an optional language tag and a newline, and lies inside the text |
| Extraction.FenceLanguageLength | scripts/generate-playgrounds.py:79 | the optional `html`/`jsx`/`mdx`/`tsx` tag and its newline, counted with the three backticks |
| Extraction.OccursInTail | scripts/generate-playgrounds.py:79 | an occurrence in the text after its first character is an occurrence in the text, one position on |
| Extraction.RemoveOpenFences | scripts/generate-playgrounds.py:79 | the first substitution never makes the text longer |
| Extraction.OpenFencesAbsent | scripts/generate-playgrounds.py:79 | text without three backticks in a row passes the first substitution unchanged |
| Extraction.OpenFenceAtStart | scripts/generate-playgrounds.py:79 | each of the fence forms is recognised at the start, and deleting it leaves the rest to the same substitution |
| Extraction.LastLineEnd | scripts/generate-playgrounds.py:80 | the last position in a range where the `re.MULTILINE` `$` matches, and none after it; none when `$` matches nowhere in the range |
| Extraction.CloseFenceEnd | scripts/generate-playgrounds.py:80 | a closing fence starts with a newline and three backticks and ends inside the text |
| Extraction.RemoveCloseFences | scripts/generate-playgrounds.py:80 | the second substitution never makes the text longer |
| Extraction.CloseFencesAbsent | scripts/generate-playgrounds.py:80 | text without three backticks in a row passes the second substitution unchanged |
| Extraction.CloseFenceRemoved | scripts/generate-playgrounds.py:80 | a final newline and fence after fence-free text is deleted, and only it |
| Extraction.FencesIgnored | scripts/generate-playgrounds.py:79-81 | an answer wrapped in a code fence, with any of the language tags, is cleaned and extracted exactly as the unwrapped answer |
| Extraction.CleanText | scripts/generate-playgrounds.py:79-81 | both substitutions and then `strip()`, defined by its body; see `FencesIgnored`, `OpenFencesAbsent` and `CloseFencesAbsent` |
| Extraction.ElementEnd | scripts/generate-playgrounds.py:84-85 | the lazy `<Sandpack[\s\S]*?/>` ends just past the first `/>` after the tag; no end when no `/>` follows the tag |
| Extraction.MatchAt | scripts/generate-playgrounds.py:84-85 | a match of either pattern is non-empty and lies inside the text |
| Extraction.TagPosition | scripts/generate-playgrounds.py:84-85 | a match holds a Sandpack tag, and the match ends where that tag's element ends |
| Extraction.MatchIsLazy | scripts/generate-playgrounds.py:84-85 | a match ends at the first `/>` after its tag, even when that `/>` lies inside the generated code |
| Extraction.MatchShape | scripts/generate-playgrounds.py:84-85 | a match starts with the heading or the tag, as its pattern says, holds the tag and ends with `/>` |
| Extraction.SliceShape | scripts/generate-playgrounds.py:84-85 | the text from a start marker up to just past a `/>` after a tag starts with the marker and holds the tag and the `/>` |
| Extraction.MatchEnds | scripts/generate-playgrounds.py:90-93 | a match is its own `strip()`, ends with `/>`, and starts with `##` exactly when it is a match of the heading pattern |
| Extraction.FirstMatchIsFirst | scripts/generate-playgrounds.py:88 | the position found is the first in the range that matches; when none is found, no position in the range matches |
| Extraction.Search | scripts/generate-playgrounds.py:88 | a match found by `re.search` lies at or after the start position and inside the text |
| Extraction.SearchIsLeftmost | scripts/generate-playgrounds.py:88 | `re.search` finds the leftmost match; when it finds none, the pattern matches nowhere |
| Extraction.NoMatchPastEnd | scripts/generate-playgrounds.py:88 | no pattern matches past the end of the text |
| Extraction.SearchFindsElement | scripts/generate-playgrounds.py:83-89 | either pattern matches only where a tag has a `/>` after it |
| Extraction.NoMatchNoElement | scripts/generate-playgrounds.py:83-96 | when the bare pattern finds nothing, no tag in the text has a `/>` after it |
| Extraction.TryPatterns | scripts/generate-playgrounds.py:83-96 | the loop over the patterns with its early return, defined by its body; see `TryBoth` and `ExtractionCases` |
| Extraction.TryBoth | scripts/generate-playgrounds.py:87-96 | the heading pattern is tried first; the bare pattern is tried only when it finds nothing |
| Extraction.Accept | scripts/generate-playgrounds.py:90-95 | the `endswith` check, the heading put in front and the blank line, defined by its body; see `AcceptShape` and `AcceptMatch` |
| Extraction.AcceptMatch | scripts/generate-playgrounds.py:90-95 | the `endswith` check passes on every match; a heading-pattern match is returned as it is, and a bare match gets the heading and a blank line in front |
| Extraction.AcceptShape | scripts/generate-playgrounds.py:90-95 | what is returned for a stripped match is a blank line, then the heading, the tag and a closing `/>` |
| Extraction.HeadingBlockShape | scripts/generate-playgrounds.py:94-95 | a bare match with the heading put in front starts with the heading and keeps the tag and the `/>` end |
| Extraction.BlockShape | scripts/generate-playgrounds.py:95 | the blank line put in front keeps the heading at the start and the tag and the `/>` end |
| Extraction.ExtractSandpackBlock | scripts/generate-playgrounds.py:77-96 | `extract_sandpack_block`, defined by its body; see `ExtractedBlockShape` and `FencesIgnored` |
| Extraction.ExtractionCases | scripts/generate-playgrounds.py:83-96 | the two-pattern loop returns nothing exactly when no tag has a `/>` after it; otherwise it returns a blank line, the heading, the tag and a `/>` end |
| Extraction.ExtractedBlockShape | scripts/generate-playgrounds.py:77-96 | a result is a blank line and a block that starts with the heading, holds the tag and ends with `/>`; there is no result exactly when the cleaned text has no tag followed by `/>` |
| Generation.RequestFor | scripts/generate-playgrounds.py:101-112 | the request carries the model, temperature 0.2, the 16384-token limit, and a prompt naming the title, fragment, section, template and entry file |
| Generation.IsComplete | scripts/generate-playgrounds.py:116 | the acceptance test of the loop: non-empty, holding the tag, ending with `/>`; defined by its body, see `AttemptIsExtraction` and `KeptBlockComplete` |
| Generation.AttemptBlock | scripts/generate-playgrounds.py:113-117 | a block accepted from one reply is complete: non-empty, holding the tag, ending with `/>` |
| Generation.AttemptIsExtraction | scripts/generate-playgrounds.py:114-116 | the check after the extraction never rejects: an answer is accepted exactly when the extraction finds a block |
| Generation.FirstBlock | scripts/generate-playgrounds.py:103-132 | the block the retry loop keeps, defined by its body; `SomeCallSucceeded`, `EarlierCallsFailed` and `FailuresAlike` state its properties and `Attempts` is proved equal to it |
| Generation.CallsMade | scripts/generate-playgrounds.py:103-119 | at most as many calls as attempts; all of them when nothing is kept; otherwise the last call made is the one whose block is kept |
| Generation.EarlierCallsFailed | scripts/generate-playgrounds.py:103-119 | every call before the last one made yields no block, and no call does when nothing is kept |
| Generation.SomeCallSucceeded | scripts/generate-playgrounds.py:103-132 | a block is kept exactly when some call in the budget yields one, and the block kept is from the first such call |
| Generation.FailuresAlike | scripts/generate-playgrounds.py:104-130 | exceptions and incomplete blocks are handled alike: replies judged alike lead to the same block and the same number of calls |
| Generation.KeptBlockComplete | scripts/generate-playgrounds.py:116-117 | a block kept by the loop is complete |
| Generation.Attempts | scripts/generate-playgrounds.py:103-132 | the retry loop returns the block and the call count of the first-success specification, with a wait after every call but the last one |
| Generation.Tries | scripts/generate-playgrounds.py:103 | the number of iterations of `range(retries)`: `retries` when positive, none otherwise; defined by its body, see `GeneratePlayground` and `CallsMade` |
| Generation.GeneratePlayground | scripts/generate-playgrounds.py:99-132 | the block returned is the first complete one within `retries` calls, or none; it is complete; the calls made and the waits between them agree |
| Files.Names | scripts/generate-playgrounds.py:162-165 | the file names of the directory, position by position |
| Files.Lookup | scripts/generate-playgrounds.py:194 | the text of a file is found exactly when the name is in the directory, and it is that file's text |
| Files.LookupAt | scripts/generate-playgrounds.py:194 | in a directory, the text found under a name is the text of the file at that name's position |
| Files.AppendText | scripts/generate-playgrounds.py:200-201 | appending keeps the number of files when the file exists, and adds one when it does not |
| Files.AppendTextLookup | scripts/generate-playgrounds.py:200-201 | after an append the file appended to holds its old text followed by the text written (or only that text if it was new), and every other file is unchanged |
| Files.AppendTextNames | scripts/generate-playgrounds.py:200-201 | appending to an existing file keeps the names of the directory |
| Files.Pages.Read | scripts/generate-playgrounds.py:194 | `read_text` gives the text of the named file |
| Files.Pages.Append | scripts/generate-playgrounds.py:200-201 | the directory after the append is the old one with the text added to the end of the named file |
| LessonSelection.NameLe | scripts/generate-playgrounds.py:162 | Python's string `<=`, defined by its body; `NameLeTotal`, `NameLeTrans`, `NameLeReflexive` and `NameLeAntisymmetric` state that it is a total order |
| LessonSelection.NameLeTotal | scripts/generate-playgrounds.py:162 | any two names are ordered one way or the other by `sorted` |
| LessonSelection.NameLeTrans | scripts/generate-playgrounds.py:162 | the name order is transitive |
| LessonSelection.NameLeReflexive | scripts/generate-playgrounds.py:162 | the name order is reflexive |
| LessonSelection.NameLeAntisymmetric | scripts/generate-playgrounds.py:162 | names ordered both ways are equal |
| LessonSelection.Insert | scripts/generate-playgrounds.py:162 | inserting a name adds exactly that name to the multiset of names |
| LessonSelection.InsertSorted | scripts/generate-playgrounds.py:162 | inserting into sorted names keeps them sorted |
| LessonSelection.SortedCons | scripts/generate-playgrounds.py:162 | a name not after any name of sorted names can be put in front of them |
| LessonSelection.SortNames | scripts/generate-playgrounds.py:162 | `sorted` is a permutation of its input |
| LessonSelection.SortNamesSorted | scripts/generate-playgrounds.py:162 | `sorted` gives ascending names |
| LessonSelection.SortedUnique | scripts/generate-playgrounds.py:162 | two sorted sequences of the same names are equal |
| LessonSelection.SortedHeads | scripts/generate-playgrounds.py:162 | two sorted sequences of the same names start with the same name |
| LessonSelection.MultisetTail | scripts/generate-playgrounds.py:162 | removing the same first name from two sequences of the same names leaves the same names |
| LessonSelection.SortIgnoresListing | scripts/generate-playgrounds.py:162-165 | the lesson order does not depend on the order the directory lists its files in |
| LessonSelection.IsLessonFile | scripts/generate-playgrounds.py:163-164 | a name `glob("*.mdx")` finds and the comprehension keeps, defined by its body; see `LessonNames` |
| LessonSelection.LessonNames | scripts/generate-playgrounds.py:163-164 | a name is kept exactly when it ends with `.mdx` and does not start with `_` |
| LessonSelection.LessonFiles | scripts/generate-playgrounds.py:162-165 | `mdx_files` holds exactly the directory's lesson files |
| LessonSelection.LessonFilesSorted | scripts/generate-playgrounds.py:162-165 | `mdx_files` is in ascending order of name |
| LessonSelection.NeedingPlayground | scripts/generate-playgrounds.py:168-172 | the names scanned whose file has no playground, in order, defined by its body; see `NeedingPlaygroundMembers`, `NeedingPlaygroundSorted` and `NeedingPlaygroundDistinct` |
| LessonSelection.NeedingPlaygroundMembers | scripts/generate-playgrounds.py:168-172 | a name is in `needs_playground` exactly when it is one of the names scanned and its file has no playground |
| LessonSelection.NeedingPlaygroundSorted | scripts/generate-playgrounds.py:168-172 | the filter keeps the sorted order |
| LessonSelection.SortedSnoc | scripts/generate-playgrounds.py:172 | appending a name that is after all the others keeps the names sorted |
| LessonSelection.Limit | scripts/generate-playgrounds.py:174-175 | a positive limit keeps exactly the first min(limit, n) names; a limit of 0 or below keeps all |
| LessonSelection.Selection | scripts/generate-playgrounds.py:162-175 | the lessons `main` processes, defined by its body; see `SelectionMembers`, `SelectionSorted`, `SelectionDistinct` and `SelectLessons` |
| LessonSelection.SelectionSorted | scripts/generate-playgrounds.py:162-175 | the lessons selected are in ascending order of name |
| LessonSelection.SelectionInNames | scripts/generate-playgrounds.py:162-175 | every lesson selected is a file of the directory |
| LessonSelection.SelectionMembers | scripts/generate-playgrounds.py:162-175 | a selected lesson is a lesson file without a playground; a lesson file without a playground is left out only when a positive limit has been reached |
| LessonSelection.NoLimitSelectsAll | scripts/generate-playgrounds.py:174-175 | with a limit of 0 or below, every lesson file without a playground is selected, in order |
| LessonSelection.DistinctTail | scripts/generate-playgrounds.py:190 | proof helper of `Driver.ProcessedContent`: dropping the first of different names leaves different names, none of them the first |
| LessonSelection.DistinctCons | scripts/generate-playgrounds.py:162 | proof helper of `LessonNamesDistinct` and `InsertDistinct`: putting in front a name that is none of the others keeps the names different |
| LessonSelection.NamesDistinct | scripts/generate-playgrounds.py:162-165 | the file names of a directory are all different |
| LessonSelection.LessonNamesDistinct | scripts/generate-playgrounds.py:163-164 | filtering different names keeps them different |
| LessonSelection.InsertDistinct | scripts/generate-playgrounds.py:162 | inserting a new name into different names keeps them different |
| LessonSelection.SortNamesDistinct | scripts/generate-playgrounds.py:162 | sorting different names keeps them different |
| LessonSelection.NeedingPlaygroundDistinct | scripts/generate-playgrounds.py:168-172 | filtering different names by their content keeps them different |
| LessonSelection.SelectionDistinct | scripts/generate-playgrounds.py:162-175 | no lesson is selected twice, so each file is written at most once |
| LessonSelection.SelectLessons | scripts/generate-playgrounds.py:162-175 | the loop that reads every lesson file and collects those without a playground, then the limit, gives the selection; the total is the number of lesson files |
| Driver.Addition | scripts/generate-playgrounds.py:201 | the text written for a playground, a newline on each side, defined by its body; see `RecordAppends` and `AppendedHasPlayground` |
| Driver.Record | scripts/generate-playgrounds.py:199-206 | recording an outcome keeps the directory's names, counts exactly one success or failure, and adds the calls made |
| Driver.RecordAppends | scripts/generate-playgrounds.py:199-206 | on success the lesson file becomes its old text + newline + block + newline; on failure, and for every other file, nothing changes |
| Driver.Handle | scripts/generate-playgrounds.py:194-206 | handling one lesson keeps the names, counts it once, and makes at most 3 client calls |
| Driver.HandleSteps | scripts/generate-playgrounds.py:194-206 | reading the lesson, running `generate_playground` on its text, and appending and counting, taken together, are `Handle` |
| Driver.HandleAppends | scripts/generate-playgrounds.py:194-206 | handling a lesson leaves every file unchanged except that lesson's file, which may instead get one complete playground appended |
| Driver.AppendedHasPlayground | scripts/generate-playgrounds.py:200-201 | a lesson with a complete playground appended counts as having a playground |
| Driver.Process | scripts/generate-playgrounds.py:190-208 | the loop over the selected lessons keeps the names of the directory |
| Driver.ProcessCounts | scripts/generate-playgrounds.py:187-206 | at the end `success + failed` is the number of lessons processed, and at most 3 calls were made per lesson |
| Driver.ProcessSkips | scripts/generate-playgrounds.py:190-206 | a file that is not one of the lessons processed is left as it is |
| Driver.ProcessedContent | scripts/generate-playgrounds.py:190-206 | with different lesson names, each file ends unchanged, or it is a processed lesson with exactly one complete playground appended |
| Driver.RunMarksChanged | scripts/generate-playgrounds.py:162-206 | in one run, an unselected file is unchanged; a changed file has one complete playground appended and is not selected by a later run with any limit |
| Driver.HandleLesson | scripts/generate-playgrounds.py:191-206 | one pass of the per-file loop changes the directory and the counters as `Handle` says |
| Driver.ProcessLessons | scripts/generate-playgrounds.py:190-208 | the per-file loop leaves the directory and the counters as `Process` says |
| Driver.RunSection | scripts/generate-playgrounds.py:144-206 | a missing or empty API key, an unknown section and a missing directory are reported in that order and change no file; otherwise the directory ends as the loop over the selection leaves it, with "nothing to do" exactly when nothing is selected, and with the final counters |
| Ideas.TrimFences | scripts/youtube-ideas.py:94-96 | the fence trim, defined by its body; see `TrimUnfenced` and `TrimFenced` |
| Ideas.InnerLines | scripts/youtube-ideas.py:96 | `'\n'.join(lines[1:-1])`, defined by its body; see `InnerLinesShape` |
| Ideas.TrimUnfenced | scripts/youtube-ideas.py:94-96 | an answer that does not start with a fence after stripping is only stripped |
| Ideas.TrimFenced | scripts/youtube-ideas.py:94-96 | a fenced answer of three lines or more is its fence line, the result and its last line, joined by newlines, and the result holds the lines in between in order; with fewer lines the result is empty |
| Ideas.InnerLinesShape | scripts/youtube-ideas.py:96 | `'\n'.join(lines[1:-1])` drops exactly the first and the last line, and splits back into the lines in between |
| Ideas.FenceOnFirstLine | scripts/youtube-ideas.py:95 | a fence at the start of the text is on its first line, which the trim drops |
| Ideas.Keys | scripts/youtube-ideas.py:17 | the keys of an object, in order |
| Ideas.Decode | scripts/youtube-ideas.py:14-26 | `decode_unicode_in_object`, defined by its body; see `DecodeObject`, `DecodeArray`, `DecodeLeaf`, `DecodeKeepsShape`, `DecodeNothing` and `DecodeTwice` |
| Ideas.DecodeObject | scripts/youtube-ideas.py:16-17 | an object keeps its keys, in order, and each value is decoded |
| Ideas.DecodeArray | scripts/youtube-ideas.py:18-19 | a list keeps its length and each item is decoded in its place |
| Ideas.DecodeString | scripts/youtube-ideas.py:20-25 | the `try`/`except` of the string case: the codec's result, or the string as it was when the codec fails; defined by its body, see `DecodeLeaf`, `DecodeNothing` |
| Ideas.DecodeLeaf | scripts/youtube-ideas.py:20-26 | a string is decoded, or kept when the codec fails; any other value that is not a container is returned unchanged |
| Ideas.DecodeKeepsShape | scripts/youtube-ideas.py:14-26 | decoding changes only strings: the keys, the lengths, the nesting and the other values stay |
| Ideas.DecodeNothing | scripts/youtube-ideas.py:20-25 | a codec that fails everywhere, or gives every string back, leaves the value unchanged |
| Ideas.DecodeTwice | scripts/youtube-ideas.py:14-26 | decoding with one codec and then another is decoding once with the two codecs applied in turn |
| Ideas.LeafTwice | scripts/youtube-ideas.py:20-26 | the string and leaf case of decoding twice |
| Ideas.MembersTwice | scripts/youtube-ideas.py:16-17 | the object case of decoding twice |
| Ideas.ItemsTwice | scripts/youtube-ideas.py:18-19 | the list case of decoding twice |
| Ideas.SameMembers | scripts/youtube-ideas.py:17 | two member lists with the same keys and the same values are equal |

## Left out

- The Gemini client and its network calls (`generate_content`) are a function parameter.
  - It maps a request and the number of calls made before it to a reply.
  - A reply is an answer text, or a failure that stands for any exception and for a missing `response.text`.
- The sleeps are left out.
  - The 2-second pause between attempts is counted as `waits`, one after every failed call but the last.
  - The 1.5-second pause after each lesson is not represented, because it affects timing only.
- Argument parsing, the environment lookup, `genai.Client` construction, all printing and `sys.exit` are left out.
  - The API key, and whether the section directory exists, are parameters of `Driver.RunSection`.
  - Each exit path is a variant of `Driver.Outcome`.
- The section listing is an input sequence of (name, content) lessons.
  - `Path` arithmetic, `glob`, and directories whose name ends in `.mdx` are not modelled.
  - Neither are read errors, UTF-8 decoding, and encoding.
- Files.Lesson: `content` is the text `read_text` returns. That call reads in universal-newlines mode, turning `\r\n` and `\r` into `\n`, and the model does not represent this translation. So the content after an append, old text + `Addition(b)` in `Driver.ProcessedContent` and `Driver.RunMarksChanged`, is what a later read returns only when the block `b` holds no `\r`.
- The second `read_text` of a lesson (line 194) is taken to return the text read during selection (line 170), because nothing writes to the file in between.
- Driver.Process: the request and the calls are numbered from 0 at the start of the run and carried through the loop. The model does not represent the client's hidden state beyond that call number.
- Python's exception handling is modelled only where the code catches exceptions.
  - `extract_sandpack_block` itself cannot raise on a string.
- Only the temperature 0.2 of `scripts/generate-playgrounds.py` is kept, as the `real` constant `Generation.Temperature`, and passed through untouched.
  - The temperature 0.9 of `scripts/youtube-ideas.py` belongs to its client call, which is left out (below).
  - JSON numbers in `Ideas.Json` are `real`.
  - Floating point is not modelled.
- `scripts/youtube-ideas.py` leaves out several things because they are library behaviour, I/O or printing:
  - the prompt;
  - the client call;
  - `json.loads`;
  - the `ideas` summary output;
  - writing the output file.
- `Ideas.Decode`: the `unicode-escape` codec (`encode('utf-8').decode('unicode-escape')`) is an opaque partial function `Codec`. The model proves properties that hold for every codec, not the codec's own escapes.
- Ideas.Json: an object is a sequence of (key, value) members, which keeps the key order of a Python `dict`. `json.loads` keeps only the last value given for a repeated key; the model represents only the parsed value, so each key occurs once in a value `json.loads` returns, and a member list with a repeated key is decoded member by member.
- The scripts `scripts/generate-image.py`, `scripts/generate-music.py`, `scripts/generate-text.py` and `scripts/generate-voice.py` are not part of this model. They are single request/response wrappers around the client with base64 and file I/O; the voice script also parses a MIME sample rate and calls ffmpeg and curl.
