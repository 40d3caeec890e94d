# Nutrispark food picker — a Dafny model

Nutrispark's landing page (`Home`, in `src/app/page.tsx`) is a combobox for choosing a food from the
catalog. On mount it fetches every food once and turns each one into a selectable entry `{value,
label}`. The `value` is a slug: the name lowercased, with each space replaced by a hyphen. The
`label` is the name itself. The page keeps four pieces of state: whether the popover is `open`, the
chosen `value` (`""` for none), the catalog `foods`, and `isLoading`. Choosing an item toggles it:
choosing the current value again clears it. The trigger button shows the label of the first entry
carrying the chosen value, or the placeholder `Select food...` when nothing is chosen. Each item
has a check mark that is shown when its value is the chosen one.

The model is pure functions over immutable datatypes:

- `Slugs` (`slug.dfy`): ASCII lowercasing, space replacement and the slug.
- `Catalog` (`catalog.dfy`): the `FoodReduced` entry, the projection of fetched names, the
  first-match lookup, the button label and the check marks.
- `Selection` (`selection.dfy`): the `{open, value}` state and its two transitions.
- `Home` (`home.dfy`): the page state, the load effect, and replaying a sequence of user and fetch
  events from mount.
- `Wrappers` (`wrappers.dfy`): `Option`, used for JavaScript's `undefined` and for a fetch that
  threw.

The fetch is an input: `FetchOutcome = Option<seq<string>>`. It holds the fetched foods' names, or
`None` when `fetch`, `response.json()` or the `data.map` projection threw. `setFoods` runs only
after the whole projection succeeds, so a failure leaves the catalog unchanged.

Two details of the code shape the model:

- When no entry carries the chosen value, the button shows `undefined` (`src/app/page.tsx:61-63`),
  not the placeholder, so `Catalog.DisplayLabel` returns `None`.
- `isLoading` is set but never read by the markup. The model keeps it as state and proves when it
  changes.

## Model

| member | source | states |
|---|---|---|
| `Slugs.LowerChar` | src/app/page.tsx:35 | lowercasing one character: the result is never an upper-case ASCII letter; the character is kept exactly when it is not upper-case ASCII; an upper-case letter becomes the lower-case letter at the same place in the alphabet |
| `Slugs.LowerCharIdempotent` | src/app/page.tsx:35 | lowercasing a character twice gives the same result as lowercasing it once |
| `Slugs.Lower` | src/app/page.tsx:35 | `toLowerCase` keeps the length and lowercases every position independently |
| `Slugs.ReplaceSpaces` | src/app/page.tsx:35 | `replace(/ /g, "-")` keeps the length, turns every U+0020 into `-` and keeps every other character |
| `Slugs.Slug` | src/app/page.tsx:35 | the slug has the name's length and holds no space and no upper-case ASCII letter; position i is `-` where the name had a space and otherwise the lowercase of the name's character |
| `Slugs.SlugIdempotent` | src/app/page.tsx:35 | the slug of a slug is the slug itself |
| `Slugs.SlugEmpty` | src/app/page.tsx:35 | a slug is empty exactly when the name is empty |
| `Slugs.SlugOfApplePie` | src/app/page.tsx:35 | the slug of "Apple Pie" is "apple-pie" |
| `Slugs.CaseInsensitiveCollision` | src/app/page.tsx:35 | "apple pie" and "Apple Pie" have the same slug |
| `Catalog.Project` | src/app/page.tsx:34-37 | the projection has one entry per fetched name, in fetch order; entry i has the name verbatim as its label and the name's slug as its value |
| `Catalog.LabelsOfProject` | src/app/page.tsx:34-37 | reading the labels back from the projection gives exactly the fetched names, so nothing is sorted, filtered or altered |
| `Catalog.ProjectAppend` | src/app/page.tsx:34-37 | projecting two concatenated lists gives the two projections concatenated, so each entry depends only on its own name |
| `Catalog.GreenApple` | src/app/page.tsx:34-37 | the name "Green Apple" projects to value "green-apple" with label "Green Apple" |
| `Catalog.FindIndex` | src/app/page.tsx:62 | the first index whose entry has the given value, or none exactly when no entry has it |
| `Catalog.Find` | src/app/page.tsx:62 | `find` returns an entry with the value exactly when one exists, and the entry it returns is the first one with that value |
| `Catalog.DisplayLabel` | src/app/page.tsx:61-63 | an empty value shows the placeholder; otherwise the button shows nothing exactly when no entry has the value; otherwise it shows the label of the first entry with the value |
| `Catalog.IsChecked` | src/app/page.tsx:86 | the check-mark test itself: an item is marked when its value equals the chosen value, so with nothing chosen no item with a non-empty value is marked; what it implies for a whole catalog is stated by `Catalog.AtMostOneChecked`, `Catalog.NoneCheckedWhenEmpty` and `Catalog.LabelOfFirstChecked` |
| `Catalog.CheckedIndices` | src/app/page.tsx:73-87 | the set of marked items, as a definition: exactly the catalog positions whose entry passes `IsChecked`; its consequences are stated by `Catalog.AtMostOneChecked`, `Catalog.NoneCheckedWhenEmpty` and `Catalog.LabelOfFirstChecked` |
| `Catalog.AtMostOneChecked` | src/app/page.tsx:84-87 | if the catalog values are pairwise distinct, at most one item is checked |
| `Catalog.NoneCheckedWhenEmpty` | src/app/page.tsx:34-87 | if no food name is empty, no item is checked while nothing is chosen |
| `Catalog.LabelOfFirstChecked` | src/app/page.tsx:61-87 | with a value chosen, the button shows the label of the first checked item, and shows nothing when no item is checked |
| `Catalog.CollisionChecksBoth` | src/app/page.tsx:34-87 | two names with the same slug give two items that are checked together; the button shows the first one's label when the slug is non-empty |
| `Selection.Initial` | src/app/page.tsx:25-26 | the popover starts closed with nothing chosen |
| `Selection.Select` | src/app/page.tsx:77-80 | after `onSelect` the popover is closed; the value is empty exactly when the chosen value was already selected or is itself empty; otherwise the value is the chosen one |
| `Selection.OnOpenChange` | src/app/page.tsx:53 | `onOpenChange` sets `open` to the given flag and never changes the chosen value |
| `Selection.SelectTwice` | src/app/page.tsx:77-80 | two selections of the same value in a row keep it chosen only if it was chosen before both, and otherwise leave nothing chosen; the popover ends closed |
| `Selection.ToggleOff` | src/app/page.tsx:78 | from a state not holding v, selecting v chooses it and selecting v again clears the choice |
| `Home.Mount` | src/app/page.tsx:25-28 | the mounted page is loading, has an empty catalog, is closed and has nothing chosen |
| `Home.FetchFoods` | src/app/page.tsx:30-42 | a failed fetch is swallowed and leaves the catalog as it was; a successful one replaces the catalog with one entry per fetched name, whose label is the name and whose value is the name's slug |
| `Home.Initialize` | src/app/page.tsx:44-50 | after the fetch settles, successfully or not, the page is no longer loading; the combobox state is unchanged; the catalog is the projection on success and unchanged on failure |
| `Home.Step` | src/app/page.tsx:44-80 | only a settlement touches the catalog or the loading flag; it clears the flag, leaves the combobox alone and sets the catalog as `fetchFoods` does; opening or closing changes only `open`; choosing an item closes the popover and clears the value if it was already chosen, otherwise sets it |
| `Home.Replay` | src/app/page.tsx:25-80 | the page after mount and a sequence of events: still loading with an empty catalog while no settlement has happened; not loading right after a settlement; closed right after a choice |
| `Home.LoadingUntilSettled` | src/app/page.tsx:28-50 | after any sequence of events from mount, the page is loading exactly when the fetch has not settled |
| `Home.NoSettleNoCatalog` | src/app/page.tsx:27 | until the fetch settles, the catalog keeps its initial empty value |
| `Home.CatalogAfterEvents` | src/app/page.tsx:27-50 | with the one fetch of a mount settled, the catalog is the projection of the fetched names, or empty if the fetch failed, whatever else happened before or after |
| `Home.ChosenValueOnlyFromChoices` | src/app/page.tsx:53-80 | the chosen value depends only on the item choices; dropping every open, close and fetch event leaves it unchanged |
| `Home.ChooseItem` | src/app/page.tsx:61-87 | choosing an item that is not the current choice, in a catalog of distinct non-empty values, checks that item alone and shows its label on the button |
| `Home.ChooseItemAgain` | src/app/page.tsx:61-87 | choosing the current choice again unchecks every item and brings back the placeholder, provided no catalog value is empty |
| `Home.FailedLoad` | src/app/page.tsx:27-50 | a mount whose fetch fails ends not loading, closed, with nothing chosen and an empty catalog, and no error escapes |

## Left out

- `Slugs.LowerChar`: lowercases only the ASCII letters A-Z and keeps every other character. JavaScript's `toLowerCase` applies full Unicode case mapping, and that can change a string's length.
- The request `fetch("/api/foods/all")` and `response.json()` (`src/app/page.tsx:32-33`) are network I/O. They are replaced by the `FetchOutcome` input. The model does not say which inputs make them fail.
- `console.error` (`src/app/page.tsx:40`) is logging only and has no effect on state.
- React's hook scheduling, re-rendering and async interleaving. The mount effect is one `Settled` event. Because the effect's dependency list is empty, a mount sees at most one such event (`Home.OneFetch`). This holds in production builds. React's development Strict Mode runs the effect twice on the same state, so it gives two settlements, and `Home.CatalogAfterEvents` does not cover that case.
- The command list's text filtering and the `CommandEmpty` message (`src/app/page.tsx:69-71`). These belong to a third-party UI library whose source is not shown. The model assumes `onSelect` receives the item's own `value`.
- Markup, CSS classes, icons and `key` props (`src/app/page.tsx:52-96`) are presentation only. The check mark's opacity appears only as the `IsChecked` predicate.
- The food detail view and its layout metadata (`src/app/food/[name]/page.tsx`, `src/app/food/[name]/layout.tsx`) are not part of this model. `Home` does no navigation.
