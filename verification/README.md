# Three-portfolio component: a verified model

This project models the logic inside the 3D résumé viewer component
(`ThreePortfolioComponent`) of the Portfolio application. The component shows a
rotating carousel of five cards built from a résumé. It has three pieces of
logic that do not depend on the 3D engine:

- **Greedy word wrap** (`wrapText`). The text is split on single spaces and the
  words are put on lines greedily, using the canvas's width measure. Here the
  measure is a parameter: any function from strings to reals.
- **Card assembly** (`createCards`, and the defaults `ngOnInit` fills in). The
  résumé becomes five title/content cards, and each card face shows at most
  four wrapped lines.
- **Interaction state machine.** These are the handlers for mouse press, mouse
  move, mouse release, canvas click and Escape. Each one is a pure step over a
  `View` record. The raycast result is an input of the click.

Modules:

- `Options` (options.dfy): a missing property.
- `Text` (text.dfy): the JavaScript string operations used. These are `trim`
  (with ECMAScript's whitespace set), `split(' ')`, `join`, and the "each word
  followed by a space" line the wrap loop builds.
- `WordWrap` (word_wrap.dfy): `wrapText`, and an independent description of a
  greedy layout by line starts.
- `ResumeCards` (resume_cards.dfy): the résumé, the defaults, the cards and
  the drawn card faces.
- `Interaction` (interaction.dfy): events, view state and handlers.

The main result about the wrap has three parts:

- `WrapTextGreedy` shows that `wrapText` returns the rendering of a greedy
  layout. In that layout, every line fits while words are added to it. A line
  ends only where adding the next word would not fit, and never before the
  first word.
- `GreedyUnique` shows there is only one such layout.
- `WrapTextIsGreedyLayout` puts the two together: `wrapText` returns exactly
  the greedy layout.

The line-count, fit, fullness, first-word and round-trip properties all follow
from this result.

JavaScript semantics modelled explicitly:

- `x || d` treats an empty string like a missing one. So an empty summary shows
  `N/A`, and an empty name or title is replaced by the default.
- A missing `role`, `company`, `degree` or `year` is concatenated as
  `undefined`.
- `trim` removes every ECMAScript WhiteSpace and LineTerminator code point,
  not only spaces.

## Model

| member | source | states |
|---|---|---|
| `Text.Trim` | src/app/three-portfolio/three-portfolio.component/three-portfolio.component.ts:231-237 | `line.trim()`, at a break and at the final push, keeps the slice after the leading whitespace. Everything after the result is whitespace, and the result's own ends are not whitespace. |
| `Text.SplitJoin` | src/app/three-portfolio/three-portfolio.component/three-portfolio.component.ts:225 | `split(' ')` loses nothing: joining the pieces with a space gives back the input. |
| `Text.JoinSplit` | src/app/three-portfolio/three-portfolio.component/three-portfolio.component.ts:225 | `split(' ')` inverts joining space-free words with single spaces. |
| `Text.Split` | src/app/three-portfolio/three-portfolio.component/three-portfolio.component.ts:225 | `split(' ')` always yields at least one piece, and no piece contains a space. |
| `Text.JoinEnds` | src/app/three-portfolio/three-portfolio.component/three-portfolio.component.ts:164-166 | `join` starts with the first part and ends with the last, with the separator between them when there are two or more. |
| `Text.JoinSnoc` | src/app/three-portfolio/three-portfolio.component/three-portfolio.component.ts:164-166 | `join` keeps parts in input order. Each further part comes after one separator, as in a left-to-right accumulation. |
| `WordWrap.WrapFrom` | src/app/three-portfolio/three-portfolio.component/three-portfolio.component.ts:228-237 | The loop keeps the lines already emitted as a prefix. It adds at least the final line, and at most one line per remaining word. |
| `WordWrap.WrapText` | src/app/three-portfolio/three-portfolio.component/three-portfolio.component.ts:224-239 | `wrapText` returns at least one line and never more lines than the text has space-separated words. |
| `WordWrap.BreakKeepsGreedy` | src/app/three-portfolio/three-portfolio.component/three-portfolio.component.ts:230-232 | Starting a new line at a word that does not fit keeps the layout greedy. |
| `WordWrap.ExtendKeepsGreedy` | src/app/three-portfolio/three-portfolio.component/three-portfolio.component.ts:233-234 | Adding a word that still fits to the current line keeps the layout greedy. |
| `WordWrap.WrapFromGreedy` | src/app/three-portfolio/three-portfolio.component/three-portfolio.component.ts:228-237 | Loop invariant: the emitted lines and the line being filled are a greedy layout of the words read so far. |
| `WordWrap.WrapTextGreedy` | src/app/three-portfolio/three-portfolio.component/three-portfolio.component.ts:224-238 | `wrapText` returns the rendering of a greedy layout. Every line holds at least one word and fits while its words are added. A new line starts only where the word would not fit, and never at the first word. |
| `WordWrap.GreedyUnique` | src/app/three-portfolio/three-portfolio.component/three-portfolio.component.ts:229-235 | The greedy rule fixes the line breaks: two greedy layouts of the same words are equal. |
| `WordWrap.WrapTextIsGreedyLayout` | src/app/three-portfolio/three-portfolio.component/three-portfolio.component.ts:224-238 | Any layout that satisfies the greedy rule is exactly the one `wrapText` renders. |
| `WordWrap.WrapTextRoundTrip` | src/app/three-portfolio/three-portfolio.component/three-portfolio.component.ts:225-237 | No word is lost or reordered. For the empty text, or words separated by single spaces with no surrounding whitespace, joining the lines with `' '` gives back the text. |
| `WordWrap.WrapTextLinesFit` | src/app/three-portfolio/three-portfolio.component/three-portfolio.component.ts:229-235 | When every space-separated word of the text is non-empty and has no whitespace at its ends, only a single word may overflow. Every line that contains a space satisfies `measure(line + ' ') <= maxWidth`. |
| `WordWrap.WrapTextBreaksOnlyWhenFull` | src/app/three-portfolio/three-portfolio.component/three-portfolio.component.ts:229-232 | When every space-separated word of the text is non-empty and has no whitespace at its ends, a line ends only when full. Adding the next line's first word and a space to it would exceed `maxWidth`. |
| `WordWrap.WrapTextKeepsFirstWord` | src/app/three-portfolio/three-portfolio.component/three-portfolio.component.ts:230 | When the first space-separated word is non-empty and has no whitespace at its ends, it never causes a break. Even if it is over-wide, it opens line 1 and no empty line comes before it. |
| `WordWrap.LeadingSpaceOpensEmptyLine` | src/app/three-portfolio/three-portfolio.component/three-portfolio.component.ts:225-237 | Without that condition the first line can be empty. For a clean, space-free word `w` whose trial line `' ' + w + ' '` overflows, the text `' ' + w` wraps to `['', w]`. |
| `ResumeCards.ApplyDefaults` | src/app/three-portfolio/three-portfolio.component/three-portfolio.component.ts:49-50 | A missing or empty name or title gets its default. A present one is kept, and no other field changes. |
| `ResumeCards.ApplyDefaultsIdempotent` | src/app/three-portfolio/three-portfolio.component/three-portfolio.component.ts:49-50 | Applying the defaults twice is the same as applying them once. |
| `ResumeCards.Cards` | src/app/three-portfolio/three-portfolio.component/three-portfolio.component.ts:162-168 | There are exactly five cards, titled SUMMARY, SKILLS, EXPERIENCE, EDUCATION, CONTACT. A falsy summary becomes `N/A` and missing lists become `''`. Skills are joined with `', '` and entries with `' | '`. Contact is `email • phone`, with `''` for missing parts. |
| `ResumeCards.ExperienceText` | src/app/three-portfolio/three-portfolio.component/three-portfolio.component.ts:165 | An entry reads role, ` @ `, company, with a missing field concatenated as `undefined`. |
| `ResumeCards.EducationText` | src/app/three-portfolio/three-portfolio.component/three-portfolio.component.ts:166 | An entry reads degree, ` (`, year, `)`, with a missing field concatenated as `undefined`. |
| `ResumeCards.SkillsInOrder` | src/app/three-portfolio/three-portfolio.component/three-portfolio.component.ts:164 | Skills appear in input order: one more skill appends `, skill`. |
| `ResumeCards.ExperienceInOrder` | src/app/three-portfolio/three-portfolio.component/three-portfolio.component.ts:165 | Experience appears in input order: one more entry appends ` | role @ company`. |
| `ResumeCards.EducationInOrder` | src/app/three-portfolio/three-portfolio.component/three-portfolio.component.ts:166 | Education appears in input order: one more entry appends ` | degree (year)`. |
| `ResumeCards.EmptyResumeCards` | src/app/three-portfolio/three-portfolio.component/three-portfolio.component.ts:162-167 | An empty résumé gives `N/A`, three empty cards and a contact card that holds only the bullet. |
| `ResumeCards.CardLines` | src/app/three-portfolio/three-portfolio.component/three-portfolio.component.ts:193-196 | A card shows between one and four lines. They are a prefix of the content wrapped to 944 pixels (the 1024 canvas less the 80 margin), and all of it when it has fewer than four lines. |
| `ResumeCards.ShortCardShowsEverything` | src/app/three-portfolio/three-portfolio.component/three-portfolio.component.ts:193-196 | Clean content that wraps to at most four lines is shown whole: the drawn lines joined with spaces are the content. |
| `ResumeCards.CardsIgnoreDefaults` | src/app/three-portfolio/three-portfolio.component/three-portfolio.component.ts:49-50 | The name and title defaults reach no card: the cards of a résumé are the same before and after the defaults. |
| `ResumeCards.CardFaces` | src/app/three-portfolio/three-portfolio.component/three-portfolio.component.ts:174-196 | The five drawn faces carry the titles in order. Each face shows the first lines, one to four, of its card's content as built from the received résumé. |
| `Interaction.Initial` | src/app/three-portfolio/three-portfolio.component/three-portfolio.component.ts:27-38 | The view before any event: not zoomed, not dragging, no selection, camera at `(0, 1, 7)`, all rotations and cursor positions 0 (with `startClickX = 0` from line 300). It is consistent. |
| `Interaction.ResetView` | src/app/three-portfolio/three-portfolio.component/three-portfolio.component.ts:287-294 | Reset sets camera target `(0, 1, 7)`, not zoomed and no selection, and changes nothing else. |
| `Interaction.OnMouseDown` | src/app/three-portfolio/three-portfolio.component/three-portfolio.component.ts:302-310 | Ignored while zoomed. Otherwise it clears the drag flag, sets `startClickX = lastMouseX = x`, records the rotation, and changes nothing else. |
| `Interaction.OnMouseMove` | src/app/three-portfolio/three-portfolio.component/three-portfolio.component.ts:312-326 | Ignored while zoomed. The drag flag becomes true once `abs(x - startClickX) > 5`, with no button check. Rotation and `lastMouseX` change only while dragging, by `0.005` per pixel since `lastMouseX`. |
| `Interaction.OnClick` | src/app/three-portfolio/three-portfolio.component/three-portfolio.component.ts:353-401 | While zoomed, a click is exactly a reset. Otherwise, while dragging it only clears the drag flag. Otherwise a hit selects that card, zooms, and sets the camera target and facing rotation, changing nothing else; a miss only clears the selection. Rotation and cursor bookkeeping never change. |
| `Interaction.OnKeyDown` | src/app/three-portfolio/three-portfolio.component/three-portfolio.component.ts:346-351 | Escape while zoomed is exactly a reset. Every other case is a no-op. |
| `Interaction.Step` | src/app/three-portfolio/three-portfolio.component/three-portfolio.component.ts:297-401 | Every event keeps zoom and selection set together, the camera home unless zoomed, and no drag while zoomed. Cursor events do nothing while zoomed, mouse-up does nothing, and only a dragging move turns the carousel. |
| `Interaction.Run` | src/app/three-portfolio/three-portfolio.component/three-portfolio.component.ts:287-400 | The consistency invariant (`isZoomed <==> selectedCard != null`, and so on) holds after any sequence of events. |
| `Interaction.ReachableViewsConsistent` | src/app/three-portfolio/three-portfolio.component/three-portfolio.component.ts:17-38 | From the initial state, no event sequence reaches a view where zoom and selection disagree. |
| `Interaction.PressAndClickSelects` | src/app/three-portfolio/three-portfolio.component/three-portfolio.component.ts:361-395 | A press, travel within 5 pixels, a release and a click on a card select and zoom that card. |
| `Interaction.DragTurnsAndSwallowsClick` | src/app/three-portfolio/three-portfolio.component/three-portfolio.component.ts:312-365 | A drag past the threshold turns the carousel by `0.005` per pixel. The click that ends it is swallowed, and nothing gets selected. |
| `Interaction.HoverAfterPressTurns` | src/app/three-portfolio/three-portfolio.component/three-portfolio.component.ts:312-332 | After a press, a release and a click on empty space, moving the cursor with no button held still turns the carousel, because mouse-move has no button check. |

## Left out

- Scene building, lighting, meshes, materials and all canvas drawing are left out: `initThree`, `createIntroText`, and the texture and mesh code in `createCards`. They are graphics-library calls with no logic. The intro text only draws the defaulted name and title.
- Raycasting, the conversion to normalised device coordinates, and the camera-target geometry are left out. They are vector and floating-point computations. The click takes their result as a `Hit`: a card index, a camera target and a facing rotation.
- The card positions on the circle (`sin`/`cos`), the camera `lerp`, the auto-rotation and zoom alignment of the carousel in `animate`, and the intro-text fade and "breathing" are left out. They are per-frame floating-point numerics. So the model's rotation changes only through dragging.
- `onResize`, `ngOnDestroy`, the `NgZone` calls and the `ResumeService` subscription are framework and I/O plumbing. The résumé service is not part of this model.
- src/main.ts and src/app/app.routes.ts are left out: they are application bootstrap and a route table with no logic.
- The component's spec file is left out: it is a creation smoke test.
- Floating-point rounding is not modelled. Rotation and widths are exact reals, and cursor coordinates are integers.
- `selectedCard` holds the card's data object in the component. The model holds the card's index, which determines that data.
- Résumé fields are modelled as strings, or lists of strings and records. A numeric `year` is taken as its decimal text. Truthiness of non-string values is not modelled.
- A résumé property that holds JSON `null` is concatenated as `null` by the experience and education entries. The model has only present and missing values, and a missing one reads as `undefined`.
- `Interaction.Initial` is the state after the cards and the handlers exist. Before the résumé arrives there are no cursor listeners, and a click throws at the missing renderer. Those early events are not modelled.
- `WordWrap.WrapTextRoundTrip`: stated only for the empty text and for texts whose words are non-empty and have no surrounding whitespace. With doubled spaces or other whitespace at word ends, `trim` can drop characters at a line break.
- `WordWrap.WrapTextLinesFit`: stated only for texts whose words are all non-empty and have no whitespace at their ends. Otherwise `trim` changes the line that was measured: for `a b\t` the loop measured `a b\t `, not `a b `.
- `WordWrap.WrapTextBreaksOnlyWhenFull`: stated only for texts whose words are all non-empty and have no whitespace at their ends. With empty words or whitespace at a word's ends (for example a tab next to a space), the trimmed lines no longer show the trial line the loop measured.
- `WordWrap.WrapTextKeepsFirstWord`: stated only for a clean first word. A text starting with a space has an empty first word, and its first line can be empty, as `WordWrap.LeadingSpaceOpensEmptyLine` shows. The contact card of a résumé with no email, ` • phone`, is such a text.
