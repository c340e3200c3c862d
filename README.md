# Character card vault: a verified model

This project models the logic of the character-card vault, a browser app that
keeps cards (a character's name, photo, basic information, tags and free-text
notes) in an IndexedDB object store. The model has three parts:

- **The record store** (`utils/storage.ts`). The `cards` object store is keyed
  by `id`. The `CardStore` class holds the store's contents as a
  `map<string, Card>`. Its methods are `getCards`, `getCardById`, `saveCard`,
  `deleteCard`, `importCards` (a loop of puts over the parsed array) and
  `exportCards`.
- **The edit page** (`pages/AddEditCard.tsx`). It covers:
  - the tag-input parser (split on `,` or `，`, trim, drop empties);
  - the quick-add rule;
  - the sorted list of distinct tag suggestions;
  - the record that Save assembles;
  - the size that `compressImage` scales a photo to.
- **The detail page** (`pages/CardDetail.tsx`): finding the card by its id,
  and the Markdown text produced by the copy button.

Modules:

- `Text` (`text.dfy`): JavaScript's `trim` and the string order. IndexedDB
  keys and `Array.prototype.sort` both use that order. The module also has a
  selection sort over a set of strings.
- `Cards` (`cards.dfy`): the record type.
- `Storage` (`storage.dfy`): the store.
- `EditForm` (`edit_form.dfy`): tags, quick-add, suggestions and save.
- `ImageBox` (`image_box.dfy`): the photo size.
- `CardDetail` (`card_detail.dfy`): lookup and Markdown.

The model treats I/O and platform services as follows:

- `crypto.randomUUID()` and `Date.now()` are parameters (`freshId`, `now`).
- What `JSON.parse` makes of an imported text is the datatype `ImportText`:
  `Malformed`, `NonArray` or `CardArray(cards)`.
- An exported text stands for the list whose parse it is.
- The route parameter `:id` is a string. The empty string means the page was
  opened without an id, which is create mode.

## Model

| member | source | states |
|---|---|---|
| Text.Trim | pages/AddEditCard.tsx:105 | `trim` leaves no whitespace (ECMAScript WhiteSpace or LineTerminator) at either end, and text that is already trimmed comes back unchanged |
| Text.TrimFacts | pages/AddEditCard.tsx:105 | trimming keeps only characters of its input, and yields the empty string exactly when the input is all whitespace |
| Text.TrimIsMiddle | pages/AddEditCard.tsx:105 | `trim`'s result is a contiguous middle of the input with only whitespace before and after it; with Text.Trim's trimmed ends, exactly the leading and the trailing whitespace are removed |
| Text.SortAscending | pages/AddEditCard.tsx:34 | sorting a set of strings yields them strictly ascending, each exactly once, with nothing added or lost |
| Storage.Put | utils/storage.ts:53 | after `put(c)`, looking up `c.id` gives exactly `c`; every other id gives what it gave before; the key set gains `c.id`; the store stays keyed by id |
| Storage.PutCount | utils/storage.ts:48-58 | saving over a stored id keeps the key set and the record count; saving a new id adds exactly one record |
| Storage.Remove | utils/storage.ts:60-70 | after `delete(id)` the id is absent and every other id is unchanged; deleting an absent id leaves the store exactly as it was |
| Storage.PutAllAt | utils/storage.ts:82-84 | after the import loop (`Storage.PutAll`, the puts in list order), each listed id holds the last listed card with that id, and each unlisted id keeps its old record |
| Storage.PutAllKeys | utils/storage.ts:82-84 | the key set after the import loop is the old key set plus the listed ids, so it never shrinks |
| Storage.PutAllKeyed | utils/storage.ts:82-84 | the store stays keyed by id through any sequence of puts |
| Storage.PutEnumeration | utils/storage.ts:82-84 | putting a full listing of a store into any store holding only some of its keys reproduces that store exactly |
| Storage.ExportImportIsNoop | utils/storage.ts:97-100 | importing the exported list into the same store changes nothing |
| Storage.ExportImportRestores | utils/storage.ts:97-100 | importing the exported list into an empty store reproduces the store |
| Storage.CardStore.constructor | utils/storage.ts:15-20 | a newly created store is empty and keyed by id |
| Storage.CardStore.GetCards | utils/storage.ts:24-34 | `getCards` lists every stored record exactly once, in strictly ascending id order, so the ids are distinct and the length is the record count |
| Storage.CardStore.GetCardById | utils/storage.ts:36-46 | `getCardById` finds a record exactly when the id is stored, and then it is that id's record |
| Storage.CardStore.SaveCard | utils/storage.ts:48-58 | `saveCard` performs one put and keeps the store keyed by id |
| Storage.CardStore.DeleteCard | utils/storage.ts:60-70 | `deleteCard` performs one delete and keeps the store keyed by id |
| Storage.CardStore.ImportCards | utils/storage.ts:72-95 | `importCards` reports success exactly when the text parses to an array; it then merges the array by puts in order, and otherwise leaves the store untouched |
| Storage.CardStore.ExportCards | utils/storage.ts:97-100 | `exportCards` produces text that parses back to a listing of every stored record, in ascending id order |
| EditForm.Split | pages/AddEditCard.tsx:105 | splitting on the two separators always yields at least one piece |
| EditForm.SplitAtSeparator | pages/AddEditCard.tsx:105 | a separator ends the pieces before it and starts the pieces after it |
| EditForm.ParsedTagsAreClean | pages/AddEditCard.tsx:120 | every tag of `EditForm.ParseTags` (the split, trim and filter chain that models the tag input's parse) is non-empty, has no whitespace at either end and contains neither `,` nor `，` |
| EditForm.ParseOfTrimmed | pages/AddEditCard.tsx:107 | trimming the whole tag input first does not change the tags it parses to |
| EditForm.JoinThenParse | pages/AddEditCard.tsx:53 | joining clean tags with `", "` (`EditForm.JoinTags`) and parsing the result with `EditForm.ParseTags` gives back the same list, in the same order |
| EditForm.AppendAfterText | pages/AddEditCard.tsx:107-109 | after non-empty text, writing `" " + tag` when the text ends with a separator, and `", " + tag` when not, appends exactly that clean tag to the parse |
| EditForm.QuickAddAppends | pages/AddEditCard.tsx:104-112 | quick-adding (`EditForm.QuickAdd`, the suggestion click handler) a clean tag that the input does not hold yields an input whose parse is the old parse followed by that tag |
| EditForm.QuickAddKeepsHeldTag | pages/AddEditCard.tsx:105-106 | quick-adding a tag that the input already parses to leaves the input unchanged, whatever the tag |
| EditForm.QuickAddIdempotent | pages/AddEditCard.tsx:105-110 | after quick-adding a clean tag the tag is in the parse, and quick-adding it again leaves the input unchanged |
| EditForm.TagsOfMembers | pages/AddEditCard.tsx:31-33 | a tag is in the collected set exactly when some card carries it |
| EditForm.DistinctTags | pages/AddEditCard.tsx:31-34 | the suggestion list holds exactly the tags carried by some card, strictly ascending and without duplicates |
| EditForm.FormOf | pages/AddEditCard.tsx:39-52 | the edit form, filled from a card, carries each of the card's twelve fields: name, photo, the six basic-information fields, tags, personality, hobbies and other notes |
| EditForm.AssembleCard | pages/AddEditCard.tsx:114-127 | a blank name saves nothing; otherwise the record has these values: the form's fields; the parsed tags; the route id, or the fresh id in create mode; and the stored `createdAt` in edit mode, with `now` when that is missing or 0, or in create mode |
| EditForm.SavedTagsAreClean | pages/AddEditCard.tsx:120-125 | every tag of a saved record is clean, whatever was typed |
| EditForm.EditUnchangedRoundTrip | pages/AddEditCard.tsx:39-53 | opening a stored card for editing and saving it untouched writes the same card back, provided its name is not blank, its id is non-empty, its `createdAt` is not 0 and every tag is clean; every card saved through this page meets these conditions, but a card stored by `importCards` need not (a `createdAt` of 0 comes back as `now`, and a tag such as `" a"` comes back trimmed) |
| EditForm.EditSaveKeepsCount | pages/AddEditCard.tsx:122-130 | saving in edit mode over a stored id keeps the key set and the record count |
| EditForm.CreateSaveAddsOne | pages/AddEditCard.tsx:122-130 | saving in create mode under an unused fresh id adds exactly one record, stamped `now` |
| EditForm.HandleSave | pages/AddEditCard.tsx:114-130 | `handleSave` writes nothing for a blank name; otherwise it reads the stored record in edit mode and puts the assembled card |
| ImageBox.Factor | pages/AddEditCard.tsx:72-82 | the scale factor is positive and at most 1 |
| ImageBox.FitImage | pages/AddEditCard.tsx:67-82 | the in-place size update returns the input scaled by the factor. The result is never larger than the input and keeps its proportions. Its height never exceeds 1200, and its width stays within 1000 for landscape input. An input that already fits both caps is returned unchanged |
| ImageBox.ScaledFacts | pages/AddEditCard.tsx:69-82 | the same bounds, stated for the scaled size of every input |
| ImageBox.PortraitWidthExceedsCap | pages/AddEditCard.tsx:77-82 | a 1100 by 1150 image is returned unchanged, and its width exceeds 1000 |
| ImageBox.BoundedFactor | pages/AddEditCard.tsx:67-68 | the corrected factor is positive and at most 1, fits both caps, and is 1 unless one of the caps is met exactly |
| ImageBox.BoundedSize | pages/AddEditCard.tsx:67-82 | the corrected size fits within 1000 by 1200, is never larger than the input, keeps its proportions, and keeps an input that already fits |
| ImageBox.BoundedAgreesWhenScaledFits | pages/AddEditCard.tsx:72-82 | whenever the code's result is within 1000 wide, the corrected size equals it |
| CardDetail.FirstMatch | pages/CardDetail.tsx:10 | the position found holds the id, and no earlier card holds it |
| CardDetail.FindCard | pages/CardDetail.tsx:10-12 | `find` fails exactly when no card has the id; otherwise it returns a card of the list with that id, with no earlier card having it |
| CardDetail.FindInListing | pages/CardDetail.tsx:9-10 | finding an id in a full listing of the store gives exactly the store's record for that id, or nothing when it is not stored |
| CardDetail.OrDefault | pages/CardDetail.tsx:19-33 | an empty field is replaced by its placeholder (`未知` or `尚无记录`), and a non-empty one is used verbatim |
| CardDetail.CardMarkdown | pages/CardDetail.tsx:15-34 | the Markdown text has no whitespace at either end |
| CardDetail.MarkdownLayout | pages/CardDetail.tsx:15-34 | the text is the title line, then the sections 基础信息, 性格特点, 兴趣爱好 and 其他备注, in that order and verbatim; then the notes without trailing whitespace, or nothing when the notes are all whitespace |
| CardDetail.MarkdownStartsWithTitle | pages/CardDetail.tsx:15-16 | the text begins with `# 角色档案: ` followed by the card's name |
| CardDetail.MarkdownEndsWithNotes | pages/CardDetail.tsx:32-34 | unless the notes are all whitespace, the text ends with the notes, minus their trailing whitespace |

## Left out

- Opening the database, upgrading it and creating the object store (utils/storage.ts:8-22). So are the failure callbacks of each request (`onerror`, `reject`). Every store operation is modelled as an atomic step that succeeds.
- Storage.CardStore.ImportCards: a failure while the transaction runs (utils/storage.ts:86-89) is not modelled. Its result depends on library behaviour that is outside this model. Every array element is taken to be a well-formed card with an `id`.
- `JSON.parse` and `JSON.stringify` themselves are foreign library calls. Their results are modelled by `ImportText`.
- Promises and async sequencing. The list pages call the async storage functions as if they were synchronous (pages/CardDetail.tsx:9 treats the promise as the list). CardDetail.FindInListing and FindCard take the resolved list instead.
- Canvas drawing, JPEG encoding and `FileReader`. The canvas also rounds or truncates the scaled size when it is assigned to `canvas.width` and `canvas.height`. Sizes are exact reals, so nothing is claimed about floating point.
- File download and upload, Blob URLs, the clipboard, `alert`, `confirm` and navigation: these are I/O and UI.
- EditForm.HandleSave does not model the `catch` branch for a `saveCard` that throws. The put is taken to succeed.
- React rendering, hooks, routing, styling and the loading state.
- `crypto.randomUUID` and `Date.now` are parameters. Their uniqueness and monotonicity are not modelled.
- Text.Below: Dafny characters are Unicode scalar values, so strings are ordered by code point. JavaScript and IndexedDB compare UTF-16 code units, and the two orders differ only for characters outside the Basic Multilingual Plane.
- Cards.Card: fields are never `undefined`. So `card.tags || []` and `card.gender || ''` (pages/AddEditCard.tsx:33, :42-48) are the identity, and `createdAt` is an integer, never `NaN`.
- EditForm.QuickAddIdempotent is stated only for clean tags. A tag with surrounding whitespace or a separator parses to something other than itself, so clicking it again appends it again. Tags saved through this page are clean; a tag that came in through `importCards` need not be, and clicking such a tag twice appends it twice.
- EditForm.AssembleCard takes what `getCardById(routeId)` returned as a parameter. EditForm.HandleSave connects it to the store.
- When the page opens in edit mode, it reads the stored card to fill the form (pages/AddEditCard.tsx:36-55). That step is EditForm.FormOf together with EditForm.JoinThenParse for the tag input.

## Findings

| source | as written | input that shows it | evidently intended | confidence | as-written member | corrected member |
|---|---|---|---|---|---|---|
| pages/AddEditCard.tsx:72-82 | only a landscape image (`width > height`) is checked against `MAX_WIDTH`; a portrait or square image is checked only against `MAX_HEIGHT` | a 1100 by 1150 image is kept at 1100 by 1150, wider than `MAX_WIDTH` = 1000 | the drawn photo fits within `MAX_WIDTH` by `MAX_HEIGHT` whatever its orientation | medium, not executed | ImageBox.PortraitWidthExceedsCap | ImageBox.BoundedSize |
