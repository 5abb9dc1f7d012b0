# WhatsApp chat filter, modelled in Dafny

This project models the core of a small tool that filters exported WhatsApp
chats. It keeps the genuine messages of a recent date window and drops system
notices. The tool exists in two versions:

- `main.py`: a fixed seven-day window, a single `DD/MM/YYYY` date format, a
  case-sensitive classifier, and output written as the kept blocks back to back.
- `whatsapp_filter_gui.py`: a chosen window, seven date formats tried in order,
  a normalising classifier, a malformed-line counter, and output assembled as
  blank-line-separated paragraphs.

Both versions share one structure. A line either starts a message, which means
it matches the pattern `[date, time] sender: body`, or continues the open message.
Each start line opens a block. The block is kept when its date parses, falls in
the window, and the first body line is not automated.

Modules and files:

- `text.dfy`
  - `Common`: an `Option` type.
  - `Text`: Python string operations with Python's semantics. This covers the
    `str.isspace` whitespace set, `strip`/`lstrip`/`rstrip`, `rstrip('\n')`,
    ASCII `lower`, `replace(c, '')`, `startswith`/`endswith`/`in`, and `"".join`.
  - `Text` also has reading a text file line by line (`Lines`), with its round trip.
- `calendar.dfy` (`Calendar`)
  - Proleptic Gregorian dates and `date.toordinal()` as `DayNumber`.
  - The window start `today - timedelta(days)`. This is `None` where Python
    raises `OverflowError`.
  - The inclusive window test.
- `date_parse.dfy` (`DateParse`): `datetime.strptime` for the directives `%d`,
  `%m`, `%Y` and `%y`. Each directive is matched like CPython's `_strptime` regex,
  alternatives in order, and the whole string must be consumed. It also holds
  the GUI's ordered list of seven formats and main.py's single format, and a
  writer (`Written`) that puts a date in any format zero-padded, so that what
  each format reads can be stated as a round trip.
- `start_line.dfy` (`StartLine`): hand-written recognisers for the two
  message-start regexes.
  - They cover backtracking for the sender group, including the optional U+200E
    in the GUI pattern.
  - `.` stops at a line break.
  - The GUI's time and meridiem syntax is ASCII-case-insensitive.
- `gui_classifier.dfy` (`GuiClassifier`) and `main_classifier.dfy`
  (`MainClassifier`): the two `is_automated_message` predicates, with their
  phrase tables exactly as written.
- `segments.dfy` (`Segments`): the reference the scanners are proved against.
  - It needs no scanning state: cut the lines into messages at the start lines
    and keep the messages whose start line passes.
  - It is generic in the line type and in the tests.
- `gui_filter.dfy` (`GuiFilter`) and `main_filter.dfy` (`MainFilter`)
  - Each has the loop of its `filter_whatsapp_chat` as a fold over a state
    record, plus the final flush, the output text and the returned counts.
  - Theorems say that each loop keeps exactly the reference's messages.
- `compare.dfy` (`Versions`): the two loops side by side.

The scanners are written over an arbitrary classification `cls: string -> Verdict`.
The theorems about them therefore hold for any start-line pattern, date parser,
window and classifier. The concrete `Classify` functions then plug in the
recognisers, parsers, window test and classifiers.

The clock is a parameter: `today` is passed in rather than read from
`datetime.now()`. File contents are a sequence of lines, or a text that `Lines`
splits. Where the two versions differ from each other or from what their comments
suggest, the code was followed:

- `is_automated_message("John Smith", "John Smith left")`
  - The GUI version says true (`GuiClassifier.DepartureNotice`).
  - main.py says false. It only recognises the notice when the body repeats the
    sender behind a U+200E (`MainClassifier.DepartureNeedsMarkedName`).
- The line `[23/04/2025, 10:00] ‎Jane Doe: Hi team`
  - The GUI reads the sender as `Jane Doe`.
  - main.py keeps the mark in the sender (`StartLine.MarkedSenderLine`).
- Neither pattern has an unattributed form. A `[date, time] body` line whose
  body has no colon is a continuation line (`StartLine.UnattributedNoStart`).
  When the body has a colon, the text before it is read as the sender: both
  versions read `[22/04/2025, 10:00] Alice changed the subject to: x` as a
  message from `Alice changed the subject to` (`StartLine.MainReadsExportLine`,
  `StartLine.GuiReadsExportLine`).
- The GUI classifier does not collapse inner whitespace. It lower-cases, strips,
  then erases U+200E, in that order.
  - A mark at either end of the body therefore shields the whitespace next to it
    from `strip` (`GuiClassifier.LrmShieldsTrailingSpace`).
  - The U+200E-prefixed "omitted" entries of its table can never match
    (`GuiClassifier.MarkedEntriesUnreachable`).
- A window of 99999 days ("All Time") is ordinary date arithmetic. It has no
  minimum-date sentinel.
- The GUI separates kept blocks by blank lines. main.py writes them verbatim.

## Model

| member | source | states |
|---|---|---|
| Text.LinesRoundTrip | main.py:68-69 | reading a text line by line and joining the lines gives the text back; every line but the last ends in its only '\n' |
| Text.LinesOfConcat | main.py:124-127 | writing such lines and reading them back gives the same lines |
| Text.StripShape | whatsapp_filter_gui.py:66 | `strip` leaves the middle of the string, with whitespace removed from both ends and none left at the edges |
| Calendar.Succ | main.py:54 | the next calendar day is a valid date after the given one |
| Calendar.SuccStep | main.py:54 | the next calendar day has the next day number |
| Calendar.AddDays | main.py:54 | stepping n days through the calendar adds n to the day number |
| Calendar.BeforeIsSmaller | main.py:89 | day numbers order dates exactly as Python's date comparison, both directions |
| Calendar.DayNumberRange | main.py:54 | every valid date has a day number between 1 and that of 9999-12-31 |
| Calendar.WindowByCounting | whatsapp_filter_gui.py:177-178 | a message is inside a window of N days ending today iff N days after it is not before today |
| Calendar.SevenDayBoundary | main.py:53-54 | with today 2025-04-29, 22 April is inside the seven-day window and 21 April is not |
| DateParse.MatchFormat | main.py:9-11 | a format either rejects the string or yields a date Python accepts; ParseMainIsRender and WrittenRoundTrip say which date |
| DateParse.ParseMainIsRender | main.py:9-11 | a zero-padded DD/MM/YYYY text that main.py parses is exactly how the parsed date is written, so with RenderRoundTrip such a text parses iff it writes a valid date |
| StartLine.MainDateGroupParses | main.py:57-59 | the date group main.py's pattern captures is zero-padded DD/MM/YYYY, and any date parsed from it writes back as the group |
| DateParse.ParseFirst | whatsapp_filter_gui.py:55-61 | no date iff every format rejects the string; any date returned exists in the calendar |
| DateParse.FirstAcceptingFormat | whatsapp_filter_gui.py:55-59 | when format i accepts and every earlier format rejects, the result is format i's date |
| DateParse.FirstSome | whatsapp_filter_gui.py:55-60 | the loop yields a result from the attempts it has not passed, and nothing only when every remaining attempt failed |
| DateParse.RenderRoundTrip | main.py:9-11 | both versions parse every valid date written as DD/MM/YYYY back to that date |
| DateParse.MainFormatComesFirst | whatsapp_filter_gui.py:45-46 | whenever main.py parses a date, the GUI parses the same date; when the GUI fails, so does main.py |
| DateParse.AmbiguousDayFirst | whatsapp_filter_gui.py:45-57 | "03/04/2025" could be read as 4 March but is read as 3 April, because DD/MM/YYYY is tried first |
| DateParse.NoFormatFits | whatsapp_filter_gui.py:55-61 | "99/99/2025" is rejected by all seven formats |
| DateParse.NonexistentDay | main.py:11 | "29/02/2025" is rejected because 2025 is not a leap year |
| DateParse.StopsAfterFirst | main.py:11 | a string whose first field is not followed by the separator is rejected |
| DateParse.WrittenRoundTrip | whatsapp_filter_gui.py:55-57 | a format whose directives name a day, a month and a year reads back any valid date written in it zero-padded; a format with %y does so for the years 1969 to 2068 |
| DateParse.GuiFormatsRoundTrip | whatsapp_filter_gui.py:45-53 | each of the seven formats, tried alone, reads back the date it writes: the five with %Y for every date, %d/%m/%y and %m/%d/%y for 1969 to 2068 |
| DateParse.ShortYearWidens | whatsapp_filter_gui.py:51-52 | the %y formats read any written date as the one with the same day and month whose year in 1969 to 2068 ends in the same two digits: "00" to "68" are 2000 to 2068, "69" to "99" are 1969 to 1999 |
| DateParse.RenderIsWritten | main.py:9-11 | the DD/MM/YYYY text of a date is %d/%m/%Y written field by field |
| StartLine.SenderGroup | whatsapp_filter_gui.py:193-194 | the sender group exists iff the text before the colon is non-empty; it is a non-empty suffix preceded by whitespace with at most one U+200E |
| StartLine.SenderPaddingGreedy | whatsapp_filter_gui.py:193-194 | no longer prefix of that text is padding, so the padding is the longest the pattern allows |
| StartLine.SenderAndBody | main.py:58 | the sender has no colon and the body has no line break |
| StartLine.MainRecognise | main.py:57-59 | a match begins with '[', and its date group is ten characters of the form DD/DD/DDDD |
| StartLine.GuiRecognise | whatsapp_filter_gui.py:186-198 | a match begins with '['; the sender has no colon and the body no line break |
| StartLine.GuiDateLength | whatsapp_filter_gui.py:188-189 | the date group is followed by a comma and consists of digits and separators |
| StartLine.MainReadsExportLine | main.py:57-59 | main.py reads date, sender and body back from every exported line dated DD/MM/YYYY; a U+200E before the sender stays in the sender |
| StartLine.GuiReadsExportLine | whatsapp_filter_gui.py:186-198 | the GUI reads date, sender and body back from every exported line with an accepted time; a U+200E before the sender is dropped |
| StartLine.MarkedSenderLine | whatsapp_filter_gui.py:193 | on the Jane Doe line the GUI's sender is "Jane Doe" and main.py's is U+200E + "Jane Doe" |
| StartLine.TimeFromParts | whatsapp_filter_gui.py:190-192 | every H:MM, HH:MM or HH:MM:SS followed by up to two meridiems is accepted |
| StartLine.TimeReads | whatsapp_filter_gui.py:190-192 | once hours, minutes and optional seconds are read, the time is accepted exactly when what remains is a meridiem tail |
| StartLine.MeridiemTime | whatsapp_filter_gui.py:190-192 | "10:15:03" + U+202F + "AM" is accepted |
| StartLine.NotMeridiem | whatsapp_filter_gui.py:190-192 | "10:15:03" + U+202F + "XM" is rejected |
| StartLine.UnattributedNoStart | main.py:57-59 | a `[date, time] body` line whose body holds no colon starts no message in either version |
| Segments.GroupsOfFlatten | main.py:72-106 | cutting well-formed messages glued together gives the messages back |
| Segments.MessagesShape | main.py:72-106 | the messages of a chat are well formed, one per start line, and together are the lines from the first start on |
| Segments.SelectShape | whatsapp_filter_gui.py:279-281 | selection keeps only messages with a good first line, in order, never more than there are |
| Segments.FilterIdempotent | main.py:72-111 | selecting again among the selected messages' lines keeps all of them |
| Segments.SameTestsSameSelection | main.py:71-92 | tests that agree on every line cut and select alike |
| GuiClassifier.UpperCaseInvariant | whatsapp_filter_gui.py:66 | upper-casing the body never changes the verdict |
| GuiClassifier.LrmInsertionInvariant | whatsapp_filter_gui.py:66 | inserting a U+200E anywhere in a body without edge whitespace never changes the verdict |
| GuiClassifier.LrmShieldsTrailingSpace | whatsapp_filter_gui.py:66 | "poll: " is automated but "poll: " + U+200E is not, because strip runs before the mark is erased |
| GuiClassifier.MarkedEntriesUnreachable | whatsapp_filter_gui.py:83-90 | no normalised body equals a table entry that contains U+200E |
| GuiClassifier.ImageNoticeKept | whatsapp_filter_gui.py:83-96 | U+200E + "image omitted" is not automated |
| GuiClassifier.DepartureNotice | whatsapp_filter_gui.py:109-113 | "John Smith left" is automated for every sender |
| GuiClassifier.EndsWithLeft | whatsapp_filter_gui.py:109-113 | a normalised body ending in " left" is automated |
| GuiClassifier.InviteLink | whatsapp_filter_gui.py:109-116 | a body containing either invite-link phrase is automated |
| GuiClassifier.InviteLinkNeedsGuard | whatsapp_filter_gui.py:109-116 | "joined using this invite link" contains both tested phrases but no guard phrase, and is not automated |
| GuiClassifier.AddedOrRemovedBy | whatsapp_filter_gui.py:118-120 | a body containing " was added by " or " was removed by " is automated |
| GuiClassifier.TildeSenderAdded | whatsapp_filter_gui.py:122-124 | for a sender starting with "~", a body containing " was added" is automated |
| GuiClassifier.SecurityCodeNeedsChanged | whatsapp_filter_gui.py:146-154 | where the security-code phrase occurs, the group-change test fires iff "changed" occurs |
| GuiClassifier.GroupPhraseSuffices | whatsapp_filter_gui.py:146-154 | without the security-code phrase, any group-change phrase makes the test fire |
| GuiClassifier.EncryptionNotice | whatsapp_filter_gui.py:66-96 | "Messages and calls are end-to-end encrypted." is automated for every sender: lower-cased it is an entry of the exact table |
| GuiClassifier.OrdinaryChatKept | whatsapp_filter_gui.py:66-168 | "Let's meet at 3pm for training" is not automated, whoever sends it: no exact, join/leave or group-change test fires |
| MainClassifier.EchoedAction | main.py:25-30 | U+200E, the sender's name, a space and an action phrase, optionally followed by more words, is automated |
| MainClassifier.CaseSensitive | main.py:37-40 | the encryption notice is automated for any sender, but the same text in lower case is not |
| MainClassifier.DepartureNeedsMarkedName | main.py:25-45 | "John Smith left" is not automated, but the same text behind U+200E is |
| MainClassifier.OrdinaryChatKept | main.py:25-45 | "Let's meet at 3pm for training" is not automated, whoever sends it |
| GuiFilter.Classify | whatsapp_filter_gui.py:215-217 | a line is a continuation exactly when the pattern does not match it |
| GuiFilter.VerdictMeaning | whatsapp_filter_gui.py:215-254 | a line starts a message iff the pattern matches; it opens a kept message iff moreover its date parses, is in the window and its stripped body is not automated for its stripped sender |
| GuiFilter.Filter | whatsapp_filter_gui.py:177-178 | there is no result exactly when the window's first day cannot be computed |
| GuiFilter.FilterMeetsReference | whatsapp_filter_gui.py:210-281 | kept blocks are exactly the reference's selected messages; kept count ≤ start lines; lines counted; malformed = bad dates + non-blank lines before the first start |
| GuiFilter.KeptBlocksAreGood | whatsapp_filter_gui.py:217-254 | kept blocks come in input order, each a whole message whose start line is in the window and not automated |
| GuiFilter.RunIdempotent | whatsapp_filter_gui.py:210-281 | filtering the kept lines again with the same window keeps them all |
| GuiFilter.ScanMeetsReference | whatsapp_filter_gui.py:210-281 | the same, for any classification of lines |
| GuiFilter.ScanLead | whatsapp_filter_gui.py:261-275 | before the first start nothing is kept and every non-blank line counts as malformed |
| GuiFilter.ScanConts | whatsapp_filter_gui.py:261-269 | continuation lines join the open block exactly when it is valid |
| GuiFilter.ScanMalformed | whatsapp_filter_gui.py:256-259 | once a block is open, only start lines with bad dates count as malformed |
| GuiFilter.ScanMessage | whatsapp_filter_gui.py:217-269 | scanning one message adds it to the kept blocks exactly when its start line is kept |
| GuiFilter.Assemble | whatsapp_filter_gui.py:314-325 | the text ends in '\n', and any character before that final '\n' is not whitespace |
| GuiFilter.ParagraphsJoin | whatsapp_filter_gui.py:319-322 | the paragraphs are the blocks without trailing newlines joined by a blank line, followed by one |
| GuiFilter.AssembleIsJoin | whatsapp_filter_gui.py:314-325 | when the edges are not whitespace, the text is the blocks without trailing newlines joined by a blank line, then one '\n' |
| GuiFilter.FilterOutput | whatsapp_filter_gui.py:314-325 | the notice is written iff nothing was kept; otherwise the text starts with '[' and, when the last block ends in text, is the blank-line join |
| MainFilter.Classify | main.py:71-72 | a line is a continuation exactly when the pattern does not match it |
| MainFilter.VerdictMeaning | main.py:71-102 | a line starts a message iff the pattern matches; it opens a kept message iff moreover its date parses, is in the week and its stripped body is not automated for its stripped sender |
| MainFilter.Filter | main.py:53-54 | there is no result exactly when the window's first day cannot be computed |
| MainFilter.FilterMeetsReference | main.py:67-133 | kept blocks are exactly the reference's selected messages; output = their lines verbatim; kept count = blocks written ≤ start lines; lines counted |
| MainFilter.KeptBlocksAreGood | main.py:72-111 | kept blocks come in input order, each a whole message whose start line is in the week and not automated |
| MainFilter.ScanMeetsReference | main.py:67-111 | the same, for any classification of lines |
| MainFilter.ScanMessage | main.py:72-106 | scanning one message adds it, whole, to the kept blocks exactly when its start line is kept, and otherwise drops all its lines |
| MainFilter.ScanConts | main.py:103-106 | continuation lines join the open block when it is non-empty and valid; otherwise only the line count changes |
| MainFilter.ScanLead | main.py:103-106 | lines read while no block is open are only counted |
| MainFilter.ConcatBlocks | main.py:124-127 | writing the joined blocks one by one writes their lines in order |
| MainFilter.RunIdempotent | main.py:67-111 | filtering the kept lines again keeps them all |
| MainFilter.OutputIdempotent | main.py:124-127 | filtering the output file again on the same day writes the same file |
| Versions.ScansAgree | main.py:72-106 | given the same classification, main.py's and the GUI's loops keep the same blocks |
| Versions.SameVerdictsSameBlocks | main.py:71-92 | on a chat where the versions agree about starts and kept messages, they keep the same blocks |

## Left out

- File I/O is left out: opening, decoding UTF-8, universal-newline translation,
  directory creation and writing. The input is a sequence of lines, or a text
  already decoded and with '\r\n' already translated.
- The exceptions for a missing file, a read error and a write error are left out.
- `datetime.now()` is replaced by the `today` parameter.
- The GUI's header lines (whatsapp_filter_gui.py:308-312) are left out, because
  they embed the current time.
- Debug and warning prints and the printed summary are left out, together with
  the counters that are only printed: `automated_filtered_count` and
  `date_filtered_count`.
  - `malformed_lines` is only printed too. It is modelled because its rules are
    part of the loop.
- The Tkinter application, `run_filter_process`, ZIP extraction, the prompt
  template and the "All Time" = 99999 mapping are UI wiring and are left out.
- All of `scrapingProgram.py` is left out.
- The GUI's `added `/`removed ` branch (whatsapp_filter_gui.py:126-129) does
  nothing and has no counterpart.
- Only ASCII letters change case in `lower` and in the IGNORECASE meridiem.
  Python would also change other letters.
- Python's `\d` also matches non-ASCII decimal digits, and `strptime` accepts
  them. Only ASCII digits are modelled.
- The regexes are not interpreted. Two hand-written recognisers follow their
  match semantics, including backtracking.
- GuiFilter.FilterOutput gives the blank-line form of the output only when the
  last kept block, without trailing newlines, ends in a non-whitespace
  character. Otherwise the final `strip` also removes that block's trailing
  spaces, and the general case is given only by `Assemble`'s contract.
- GuiClassifier.LrmInsertionInvariant is stated for bodies without whitespace at
  their edges, which is what the loop passes. For other bodies a mark at an
  edge can change the verdict (GuiClassifier.LrmShieldsTrailingSpace).
