# VirtualDJ playlist formatter — Dafny model

`vdj_playlist_formatter` turns a playlist exported by VirtualDJ as CSV into text. It
skips the first record, treats the second as the header and looks up the "Artist" and
"Title" columns in it. If a name is missing it falls back to column 1 for the artist and
column 0 for the title. It then asks the user for a style:
1 (or just Enter) gives the decorated `/me ♬♪♫ now playing... ★★┊ A - T ┊★★` lines for
3DX chat, and 2 gives plain `A - T` lines. It writes one line per remaining record.

This project models that logic in two modules:

- `GoStrings` (`go_strings.dfy`) models the Go library functions the program calls:
  `strings.HasSuffix`, `strings.Replace(s, "\n", "", -1)`, `strings.ToLower`,
  `strings.TrimSpace` with the exact `unicode.IsSpace` character set, and a
  newline count used to state line properties.
- `PlaylistFormatter` (`playlist_formatter.dfy`) models the program's own code.
  `Contains` is a loop method with an early return. Column resolution is a function.
  The output loop is a method, proved against the function `Render`.
  `cleanUserInput` becomes `Clean`. The menu decision becomes `Decide`. The menu
  loop in `welcomeUser` runs over the lines already read. `Run` models `main` from
  the `.csv` check to the end of the formatting loop.

A data record too short for a resolved column makes the Go program panic with index
out of range. The model does not exclude such records with a precondition. It returns
`IndexOutOfRange(k)` (or `Panic(k)` from `Run`) for the first such record. Columns are
`nat`s: after the fallback, neither index can be -1.

The decorated template has a space after the opening `┊`, as line 92 writes it
(`★★┊ %s - %s ┊★★`). The model follows that code.

## Model

| member | source | states |
|---|---|---|
| `GoStrings.HasSuffixIff` | vdj_playlist_formatter.go:24 | the suffix test accepts a path exactly when it is some string followed by `.csv` |
| `GoStrings.RemoveAll` | vdj_playlist_formatter.go:138 | the result holds no newline, and it is shorter than the input by exactly the number of newlines the input holds |
| `GoStrings.RemoveAllKeeps` | vdj_playlist_formatter.go:138 | every character left after removal was in the input |
| `GoStrings.RemoveAllAppend` | vdj_playlist_formatter.go:138 | removal distributes over concatenation, so the result is the input's non-newline characters in their original order |
| `GoStrings.ToLowerAt` | vdj_playlist_formatter.go:139 | lower-casing maps each character on its own, ASCII capitals to small letters |
| `GoStrings.ToLowerAppend` | vdj_playlist_formatter.go:139 | lower-casing distributes over concatenation |
| `GoStrings.TrimLeftSuffix` | vdj_playlist_formatter.go:140 | trimming the left yields a suffix of the input, and everything before that suffix is white space |
| `GoStrings.TrimRightPrefix` | vdj_playlist_formatter.go:140 | trimming the right yields a prefix of the input, and everything after that prefix is white space |
| `GoStrings.TrimSpace` | vdj_playlist_formatter.go:140 | the result neither starts nor ends with a `unicode.IsSpace` character |
| `GoStrings.TrimSpaceSlice` | vdj_playlist_formatter.go:140 | the trimmed string is the slice of the input between its leading and its trailing white space |
| `GoStrings.TrimSpaceSurrounded` | vdj_playlist_formatter.go:140 | white space wrapped around a string whose ends are not white space is exactly what trimming removes |
| `GoStrings.TrimSpaceKeeps` | vdj_playlist_formatter.go:140 | every character of the trimmed string occurs in the input |
| `PlaylistFormatter.FirstIndex` | vdj_playlist_formatter.go:199-206 | result is -1 or an index into the slice; -1 exactly when no element equals the name; otherwise that element equals the name and none before it does |
| `PlaylistFormatter.FirstOccurrenceIsFirstIndex` | vdj_playlist_formatter.go:200-203 | an index holding the name with no earlier match is the answer, so the answer is unique |
| `PlaylistFormatter.Contains` | vdj_playlist_formatter.go:199-206 | the scan with early return yields -1 or an in-range index, -1 iff the name is absent, otherwise the first exact (case-sensitive) match |
| `PlaylistFormatter.ResolveColumns` | vdj_playlist_formatter.go:69-77 | artist column is the first "Artist" cell of the header, else 1; title column is the first "Title" cell, else 0; each resolved on its own |
| `PlaylistFormatter.LookupIsCaseSensitive` | vdj_playlist_formatter.go:69-77 | a header with lower-case `title`, `artist` is not recognised and gives the fallbacks 1 and 0 |
| `PlaylistFormatter.FormatRows` | vdj_playlist_formatter.go:87-94 | the loop yields text exactly when every record is long enough for both columns; the text is the records' lines in record order; otherwise it stops at the first record that is too short |
| `PlaylistFormatter.RenderSnoc` | vdj_playlist_formatter.go:88-93 | processing one more record appends that record's line to the output so far |
| `PlaylistFormatter.RenderAppend` | vdj_playlist_formatter.go:87-94 | the output for two record lists in sequence is the concatenation of their outputs |
| `PlaylistFormatter.RenderFirst` | vdj_playlist_formatter.go:87-94 | the output starts with the first record's line, followed by the output for the remaining records |
| `PlaylistFormatter.RenderSplitAt` | vdj_playlist_formatter.go:87-94 | record k's line sits exactly between the output of the records before it and of those after it |
| `PlaylistFormatter.LineNewlines` | vdj_playlist_formatter.go:90-92 | in either template a line ends in a newline and adds exactly one newline to those in its two cells |
| `PlaylistFormatter.RenderNewlines` | vdj_playlist_formatter.go:87-94 | with newline-free cells, the output holds exactly one newline per record and ends in a newline when any record exists (empty input gives "") |
| `PlaylistFormatter.PlainExample` | vdj_playlist_formatter.go:69-94 | header `Title,Artist` and record `Song A,Artist A` resolve to columns (1, 0) and give `Artist A - Song A` in plain mode |
| `PlaylistFormatter.Clean` | vdj_playlist_formatter.go:137-142 | the cleaned input holds no newline and no ASCII capital, and neither starts nor ends with white space |
| `PlaylistFormatter.CleanIdempotent` | vdj_playlist_formatter.go:137-142 | cleaning twice gives the same as cleaning once |
| `PlaylistFormatter.BlankCleansToEmpty` | vdj_playlist_formatter.go:137-142 | a line of nothing but white space (Enter alone) cleans to the empty string |
| `PlaylistFormatter.CleanSurrounded` | vdj_playlist_formatter.go:137-142 | an answer without newlines and with no white space at its ends, typed with any white space around it (the line's `\n` or `\r\n` included), cleans to that answer lower-cased |
| `PlaylistFormatter.Decide` | vdj_playlist_formatter.go:114-121 | "1" or "" picks the decorated style, "2" the plain style, and anything else reprompts; each case iff |
| `PlaylistFormatter.BlankSelectsFormatted` | vdj_playlist_formatter.go:113-115 | a blank answer picks the decorated style (the default) |
| `PlaylistFormatter.PaddedAnswerDecides` | vdj_playlist_formatter.go:113-121 | `1` or `2` typed with white space around it, such as `2\n` or ` 2\r\n`, picks the decorated or the plain style |
| `PlaylistFormatter.FirstDecisionAt` | vdj_playlist_formatter.go:112-122 | the first line the menu accepts decides the style, whatever follows it |
| `PlaylistFormatter.FirstDecisionNone` | vdj_playlist_formatter.go:112-122 | the menu gets no answer exactly when every line read was rejected, so it can only end with one of the two styles or an input error |
| `PlaylistFormatter.WelcomeUser` | vdj_playlist_formatter.go:110-122 | the prompt loop returns the style chosen by the first accepted line, or nothing when the input runs out |
| `PlaylistFormatter.Run` | vdj_playlist_formatter.go:23-94 | a path not ending in `.csv` exits 1 whatever the file holds; a missing first or second record, or no accepted answer, exits 1; otherwise the result is the rendered output for the chosen style and the resolved columns, or a panic at the first record that is too short |

## Left out

- Argument count checking and the usage message (lines 15-21): process control only.
- Opening and closing the file (lines 32-46) is reduced to one input. `file` is `None` when `os.Open` fails, and the model returns the fatal error `OpenFailed`. A failure to close the file is not modelled.
- The CSV parser (`encoding/csv` with `FieldsPerRecord = -1`, lines 48-82) is a library and is not modelled. `Run` receives the parsed records. A parse error in the first or second record is not distinguished from a missing record. The panic on a `ReadAll` error is not modelled.
- Printing the banner and prompts, and reading stdin with `bufio` (lines 99-110, 118, 125-132), are I/O. `WelcomeUser` receives the lines as a sequence. Running out of lines stands for the read error that ends the process with status 1.
- PlaylistFormatter.WelcomeUser: each element of `lines` is one read that `ReadString('\n')` completed, so it ends in `\n`. A final line with no newline makes `ReadString` return an error, and the model treats it as running out of input (status 1), not as an answer.
- `extractOutput`, `printUnformattedOutput` and `createAndOpenFile` (lines 144-197) print to the console, write `output.txt`, call `open.Run` and query the executable path. All of that is I/O and foreign code, so `Run` stops at the text and mode it would hand to them.
- GoStrings.ToLower: folds only ASCII capitals. Go's `strings.ToLower` also lower-cases every other Unicode letter, and that is not modelled. `Clean` and `CleanIdempotent` are stated over this ASCII fold.
- GoStrings.TrimSpace: works on Unicode scalar values. Go works on UTF-8 bytes, and invalid UTF-8 input is not modelled.
- PlaylistFormatter.Clean: promises no ASCII capital in the result, not "no capital letter" in the full Unicode sense, because of the ASCII-only fold above.
- Exit statuses are not numbers in the model. Every `Exit(_)` outcome stands for status 1, and `Panic(_)` stands for Go's run-time panic.
