# marte-socialbot: the ghostwriter's logic, in Dafny

`social_ghostwriter.py` is a daily job that makes a social media post. It
works in four steps:

1. It picks a topic from the editorial calendar.
2. It scrapes a page for context.
3. It asks a language model for a LinkedIn copy and the texts of the carousel slides, then parses the reply.
4. It draws the slides, with keywords between `*` in orange.

This project models the logic inside that job and proves what it does. The
network, the language model, Pillow and SMTP stay outside.

- `wrappers.dfy`: `Option`, standing for Python's `None` next to a value.
- `text.dfy` (module `Text`): the Python string operations the code relies on, written out on `seq<char>`:
  - `str.split(sep)`
  - `sep.join`
  - `str.replace(sub, '')`
  - `str.strip()`, with Python's whitespace set

  Alongside them come the lemmas relating these operations: split and join undo each other, and concatenating the parts of a split removes the separator.
- `wrap.dfy` (module `Wrap`): `wrap_text` as the imperative greedy loop of the source. The font measurement `draw.textbbox` is an abstract `width: string -> int`. A ghost out-parameter records the word list behind each line.
- `slide.dfy` (module `Slide`): the body of `create_slide`. The text is wrapped to `W - 160`. Each line is then split at `*` into runs: odd parts are orange, even parts white, and empty parts are skipped. The lines are placed 70 pixels apart from y = 350. The runs are specified by a pure function, and that function is proved equal to a character-by-character reference colouring.
- `reply.dfy` (module `Reply`): `parse_response` as the loop that overwrites dictionary entries, specified by a fold (`Fill`). Beside it sit the requested reply format and a corrected parser (see Findings).
- `calendar.dfy` (module `Calendar`): the calendar block of `main`, as its sequence of reassignments.
  - The weekday rule (`WeekdayRule`) runs first and the monthly rule (`MonthlyRule`) overwrites it; `SelectPlan` runs both.
  - `scrape_section` is modelled over an abstract `page(url, selector)`. It returns the element's text or `None`, and the result is cut to 2000 characters.
  - The method also returns the list of pages fetched.
- `ghostwriter.dfy` (module `Ghostwriter`): `main` from the calendar (line 206) to `font_url = FONTS[font_key]`. The language model is an abstract `generate(prompt, context)`, which returns `None` where the call would raise.

`copy` defaults to `''`, unlike the other four fields, which default to `'Marte Update'` and `'...'` (social_ghostwriter.py:158); `Reply.Default(Copy) == ""`.

## Model

| member | source | states |
|---|---|---|
| Text.JoinSplit | social_ghostwriter.py:41 | `' '.join(text.split(' ')) == text` for every text: splitting on a separator loses nothing |
| Text.SplitJoin | social_ghostwriter.py:41 | splitting the space-join of non-empty space-free words on `' '` gives the words back |
| Text.ConcatSplit | social_ghostwriter.py:104 | the parts of `line.split('*')`, concatenated, are `line.replace('*', '')` |
| Text.StripTrimmed | social_ghostwriter.py:161-165 | `strip()` leaves a text unchanged exactly when neither end is whitespace |
| Text.RemoveAllOmits | social_ghostwriter.py:47 | `s.replace(c, '')` leaves no `c`: the measured test line holds no `*` |
| Wrap.WrapText | social_ghostwriter.py:38-57 | The word lists of the lines, concatenated, are exactly `text.split(' ')`: no word is lost, duplicated, reordered or split. There are between 1 and `len(words)+1` lines. The first line's word list is empty exactly when the first word alone is wider than `max_width`; no later line has an empty word list. Every prefix of two or more words of a line, the prefixes the loop measured, fits in `max_width` with `*` removed, so a line of two or more words fits. Each line after the first starts with a word that overflowed the line before it (greedy). Joining the lines with spaces gives the text back, after dropping the line of that empty first word list |
| Wrap.WrapUnique | social_ghostwriter.py:38-57 | there is only one greedy wrap of a word list: two splits into lines that both satisfy the properties `WrapText` ensures are equal, so that contract fixes the lines completely |
| Wrap.ExtendLine | social_ghostwriter.py:44-51 | a word that fits keeps every loop invariant with the word added to the current line |
| Wrap.BreakLine | social_ghostwriter.py:51-54 | a word that overflows closes the current line and starts the next, keeping every loop invariant, the greedy one included |
| Wrap.RejoinLines | social_ghostwriter.py:53-56 | lines made by space-joining non-empty word lists, themselves space-joined, equal the space-join of all the words |
| Slide.RunsOf | social_ghostwriter.py:107-113 | at most one run per part |
| Slide.RunsFromParts | social_ghostwriter.py:107-113 | every run is a non-empty part: empty parts are skipped (`if not part: continue`) |
| Slide.ColourRuns | social_ghostwriter.py:104-113 | no run of a line is empty or contains `*` |
| Slide.RunsPaintHighlight | social_ghostwriter.py:104-113 | The runs of the split paint every character except `*`. Each character is orange exactly when an odd number of `*` precede it, counted from the given parity |
| Slide.ColourRunsPaint | social_ghostwriter.py:104-113 | the coloured characters drawn for a line equal the reference colouring: the line without `*`, orange exactly after an odd number of `*` |
| Slide.ColourRunsText | social_ghostwriter.py:104-113 | the texts of the runs of a line, concatenated, are the line with every `*` removed |
| Slide.Emphasis | social_ghostwriter.py:104-111 | `a*b*c` (no other `*`) is drawn as `a` white, `b` orange, `c` white, with empty pieces skipped |
| Slide.ParityRestartsPerLine | social_ghostwriter.py:102-111 | On one line, `*a b*` is a single orange run. When the wrap splits it into `*a` and `b*`, `b` is drawn white, because the parity restarts on every line |
| Slide.LineRuns | social_ghostwriter.py:104-113 | the inner loop over `enumerate(line.split('*'))` draws exactly `ColourRuns(line)` |
| Slide.PlaceLines | social_ghostwriter.py:101-120 | line `i` is placed at y = 350 + 70·i with its own runs, and its drawn text is the line without `*` |
| Slide.LayOutBody | social_ghostwriter.py:96-120 | The body lines are the greedy wrap of the text to `W - 160` (`920`), with every property `WrapText` ensures: all words in order, every measured prefix fitting, every break forced. They hold the text with only spaces turned into breaks. Each line is placed at y = 350 + 70·i with its own runs, which draw the line without `*` |
| Slide.ParityInverted | social_ghostwriter.py:101-113 | as written, `*a b* r` on one line draws `a b` orange and ` r` white, while wrapped into `*a` and `b* r` it draws `b` white and ` r` orange, because every line restarts the parity |
| Slide.HighlightAppend | social_ghostwriter.py:104-111 | the reference colouring of two texts in a row is the colouring of the first, then that of the second started with the parity the first left |
| Slide.CarriedPaint | social_ghostwriter.py:101-113 | with the parity carried from line to line, the lines paint exactly the reference colouring of the whole body: each character is orange exactly when an odd number of `*` precede it in the body |
| Slide.ParityCarried | social_ghostwriter.py:101-113 | with the parity carried, the wrapped `*a` and `b* r` draw `a` and `b` orange and ` r` white, as on one line |
| Reply.Defaults | social_ghostwriter.py:158 | the dictionary has exactly the five keys `copy`, `titolo`, `s1`, `s2`, `s3` |
| Reply.ParseResponse | social_ghostwriter.py:157-166 | the result has exactly the five keys and is the fold of the piece-by-piece update over `text.split('---')`, starting from the defaults |
| Reply.ClassifyByLabel | social_ghostwriter.py:161-165 | a piece is taken for field `f` exactly when it starts with `f`'s label (no label is a prefix of another, so the order of the `elif` chain does not matter) |
| Reply.StepChangesOneField | social_ghostwriter.py:160-165 | a piece changes at most one field, to the piece with every occurrence of the label removed and then stripped; a piece without a label (such as `FINE` or the leading text) changes nothing |
| Reply.ParsedDefault | social_ghostwriter.py:158-165 | a field that no piece is labelled with keeps its default `''`, `'Marte Update'`, `'...'`, `'...'` or `'...'` |
| Reply.ParsedLastWins | social_ghostwriter.py:160-165 | the value of a labelled field comes from the last piece carrying its label |
| Reply.FillKeeps | social_ghostwriter.py:160-165 | pieces none of which is labelled `f` leave `f` unchanged |
| Reply.FillLastWins | social_ghostwriter.py:160-165 | starting from any dictionary, the last piece labelled `f` decides `f` |
| Reply.SplitRequested | social_ghostwriter.py:139-150 | A reply in the requested format `---COPY---\n…\n---SLIDE_TITOLO---\n…---FINE---` splits on `---` into pieces. The pieces are: an empty piece, then for each field its bare label followed by its framed text, then `FINE` and an empty piece |
| Reply.FillBlock | social_ghostwriter.py:160-165 | a bare label piece empties its field, and the framed text after it changes nothing |
| Reply.RequestedFormatBlanked | social_ghostwriter.py:157-166 | as written, a reply in exactly the requested format comes out with all five fields `''`, whatever texts it carried, as long as none of them contains `---` (spaces at either end included) |
| Reply.LabelOf | social_ghostwriter.py:139-150 | the corrected parser recognises a piece as a label only when the piece is exactly that label |
| Reply.CorrectedRoundTrip | social_ghostwriter.py:139-150 | the corrected parser returns exactly the five texts a reply in the requested format carries |
| Reply.CorrectedDefaults | social_ghostwriter.py:158 | with the corrected parser, a reply without any label still gives the defaults |
| Calendar.ScrapeSection | social_ghostwriter.py:168-174 | the result is `""` when the element is missing; otherwise it is the prefix of the element's text with length `min(len, 2000)` |
| Calendar.SelectPlan | social_ghostwriter.py:206-253 | The result satisfies `Chosen`, which says the following. A post is planned exactly when the day is 1, 10 or 20 or the weekday is 0, 2 or 4. Days 1, 10 and 20 give Promo Agency, Call for Movies and Promo MSH, whatever the weekday. Otherwise weekdays 0, 2 and 4 give Cinema Cult, Intelligence and Music Vibe. Each comes with its font key, instruction, link and context. With no rule, everything keeps its initial value (`None`, `'agency'`, empty strings). On days 10 and 20 the link is the weekday's. On Wednesday the text falls back to `body` when the `article` text is shorter than 20 characters. `font_key` is always a key of `FONTS`. The pages fetched are the weekday's, even on a day the monthly rule overrides |
| Calendar.ChosenUnique | social_ghostwriter.py:206-253 | `Chosen` fixes the whole plan and the list of pages fetched for every weekday, day and page: two results that both satisfy it are equal |
| Calendar.WeekdayRule | social_ghostwriter.py:206-233 | Starting from the initial values, Monday, Wednesday and Friday set the Cinema Cult, Intelligence and Music Vibe post with its link and the text scraped from that link. Wednesday scrapes `article` and, when that text is shorter than 20 characters, scrapes `body` instead. Any other weekday leaves the initial values and fetches nothing |
| Calendar.MonthlyRule | social_ghostwriter.py:235-253 | Day 1 replaces the whole plan by the Promo Agency post and its link. Days 10 and 20 replace post, font, instruction and context, and keep the weekday's link. Any other day leaves the plan as the weekday rule set it |
| Ghostwriter.RunDay | social_ghostwriter.py:206-263 | The plan and the pages fetched are the calendar's choice (`Chosen`, as for `SelectPlan`). Nothing is generated on a day without a post. On a planned day, a model call that raises (social_ghostwriter.py:154-155) ends the run with no kit, since nothing in `main` catches it. Otherwise the kit's texts are what `parse_response` makes of the model's reply to the calendar's instruction and context, with the five keys. Its font URL is `FONTS[font_key]`, which is always defined. On days 1, 10 and 20 a kit that is made is the monthly post |

## Left out

- The HTTP requests of `download_font` and `scrape_section`. `scrape_section`'s page is the abstract `page` function, whose `None` stands for a missing element or a failed request.
- BeautifulSoup's `select_one` and `get_text(separator=" ", strip=True)`: these are inside the abstract `page`.
- The call to the language model and the prompt template of `get_gemini_content`. The model is the abstract `generate`. The template only matters through the reply format it requests, which is `Reply.Requested`.
- Pillow. This covers:
  - font download, loading and fallback
  - the canvas
  - `draw.text` and `draw.line`
  - the x-advance of each run
  - the cover title (`title.upper()`, whose Unicode case mapping has no counterpart here)
  - the footer

  Measurement is the abstract `width`.
- `send_email_kit` (SMTP and MIME) and the configuration read from the environment.
- `datetime.now()`: the weekday and day of the month are parameters.
- Everything in `main` after `font_url = FONTS[font_key]`: drawing the slides, building the PDF and sending the kit.
- `print` calls.
- Ghostwriter.RunDay: uses the parser as written (`parse_response`), because it models `main`'s own call. The corrected parser is `Reply.CorrectedParse`. The exception a failed model call raises is one outcome, `Aborted`; its message and traceback are not modelled.
- Slide.LayOutBody: colours each line with the parity restarting at the line, as `create_slide` does. The corrected colouring, which carries the parity across lines, is `Slide.CarriedRuns`.

## Findings

| source | as written | input that shows it | evidently intended | confidence | as-written member | corrected member |
|---|---|---|---|---|---|---|
| social_ghostwriter.py:157-166 (with the format requested at social_ghostwriter.py:139-150) | The reply is split on `---` and a piece must start with the label. In the requested format, every label stands alone between two markers, so its piece is the bare label. That piece sets the field to `''`, and the text, which is in the next piece, is ignored | `"---COPY---\nHello\n---SLIDE_TITOLO---\nTitle\n---SLIDE_1---\nA\n---SLIDE_2---\nB\n---SLIDE_3---\nC\n---FINE---"` gives all five fields `''` | each field gets the text between its `---LABEL---` marker and the next marker, stripped | not executed | Reply.RequestedFormatBlanked | Reply.CorrectedRoundTrip |
| social_ghostwriter.py:101-113 (with the emphasis the prompt asks for at social_ghostwriter.py:136) | Each wrapped line is split on `*` afresh, so the colour parity restarts at every line. An emphasis of several words that the wrap breaks leaves its end white and colours the rest of its last line orange | a body `*Concetto Chiave* resto` wrapped after `*Concetto`: the line `Chiave* resto` draws `Chiave` white and ` resto` orange | every character keeps the colour it has in the unwrapped body: orange exactly when an odd number of `*` precede it in the body | not executed | Slide.ParityInverted | Slide.CarriedPaint |
