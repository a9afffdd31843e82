# Placeholder text of the text-import dialog

This project models `formatPlaceholderText`, the pure function inside the
`ImportText` component of the MPC Autofill editor. The import dialog asks the
server for example card lists, keyed by card type. The function turns them
into the greyed-out placeholder of the dialog's textarea, written in the same
`<count>x <prefix><name>` line format a user types into that textarea.

The function does four things:
- It walks the card types in the fixed order Card, Token, Cardback.
- It skips every type whose value is `null` or missing.
- It renders each `[count, name]` pair as `${count}x ${prefix}${name}`, with
  the type's search prefix from `ReversedCardTypePrefixes`, and joins one
  type's lines with `"\n"`.
- It joins the per-type blocks with `separator + separator`, that is `"\n\n"`.

Modules:
- `Wrappers`: `Option`, used for a missing property (JavaScript `undefined`).
- `Strings`: `Join` with the semantics of `Array.prototype.join`, and
  `Split`, the one-character `String.prototype.split`. `Split` is the
  inverse used to state the line structure of the result.
- `Decimal`: `NatToString`, the decimal rendering of a count as
  `${count}` produces it, with its inverse `ParseDecimal`.
- `ImportText`: the data model, `FormatPlaceholderText`, and the lemmas
  about it.

The data model:
- The server's object is a list of `(key, value)` properties in key order,
  since a JavaScript object is ordered. This makes "the key order does not
  matter" a statement that needs a proof.
- A value is `Null` or `List(items)`. A missing key is `None` from `Get`.
- The key strings of the three card types and the prefix strings in
  `ReversedCardTypePrefixes` live in `common/constants`, which is not part
  of this model. They are the fields of a `Constants` parameter. No lemma
  assumes that the three keys differ.

`FormatPlaceholderText` is written as the source's loop: push one block per
present type, then join. It is proved equal to `FormatText`, a declarative
definition: filter the fixed order by presence, render each block, join.
The lemmas about `FormatText` state the following:
- the fixed block order;
- one block per present type;
- absent and `null` types are skipped;
- other keys and the key order are irrelevant;
- each line's exact form, proved by parsing it back;
- the line structure of the whole text, proved by splitting on `"\n"`;
- exactly when the text is empty;
- a type present with an empty list keeps both of its separators.

## Model

| member | source | states |
|---|---|---|
| ImportText.FormatPlaceholderText | MPCAutofill/cardpicker/frontend/js/editor/features/import/importText.tsx:33-54 | The loop over Card, Token, Cardback that pushes a block for each value that is not null or undefined, then joins with a doubled separator. It yields exactly the declarative text: the present types' blocks in the fixed order joined by "\n\n". |
| ImportText.FixedOrder | MPCAutofill/cardpicker/frontend/js/editor/features/import/importText.tsx:41-53 | The text is the Card block, then the Token block, then the Cardback block, each only if its type is present, joined by "\n\n". |
| ImportText.PresentBlocksInOrder | MPCAutofill/cardpicker/frontend/js/editor/features/import/importText.tsx:41-50 | The pushed blocks are the three optional sections, in the order Card, Token, Cardback. |
| ImportText.PresentTypesOfOrder | MPCAutofill/cardpicker/frontend/js/editor/features/import/importText.tsx:41-42 | Filtering the fixed order by the `!= null` test keeps exactly the present types, in that order. |
| ImportText.PresentTypes | MPCAutofill/cardpicker/frontend/js/editor/features/import/importText.tsx:41-42 | A type is among the filtered types if and only if it is in the walked list and passes the `!= null` test. There are never more filtered types than walked ones. |
| ImportText.BlockPerPresentType | MPCAutofill/cardpicker/frontend/js/editor/features/import/importText.tsx:41-52 | The number of blocks equals the number of present types. Each present type, and no other, has a block, and the blocks are in strictly increasing rank order. |
| ImportText.SameEntriesSameText | MPCAutofill/cardpicker/frontend/js/editor/features/import/importText.tsx:41-42 | The text depends only on what the three card-type keys hold. |
| ImportText.OtherKeysIgnored | MPCAutofill/cardpicker/frontend/js/editor/features/import/importText.tsx:41 | Inserting a property under any key other than the three card-type keys, at any position and with any value, leaves the text unchanged. |
| ImportText.NullSameAsAbsent | MPCAutofill/cardpicker/frontend/js/editor/features/import/importText.tsx:42 | Adding a new key whose value is null leaves the text unchanged, so a null type contributes no block and no separator, just like a missing one. |
| ImportText.KeyOrderIrrelevant | MPCAutofill/cardpicker/frontend/js/editor/features/import/importText.tsx:41-42 | Two objects with the same properties in any order give the same text. |
| ImportText.Get | MPCAutofill/cardpicker/frontend/js/editor/features/import/importText.tsx:42 | A property lookup is undefined exactly when no property has the key. Otherwise it returns a value stored under that key. |
| ImportText.GetUnique | MPCAutofill/cardpicker/frontend/js/editor/features/import/importText.tsx:42 | In an object with distinct keys, looking up a property's key returns that property's value. |
| ImportText.GetInsertOther | MPCAutofill/cardpicker/frontend/js/editor/features/import/importText.tsx:42 | Inserting a property does not change a lookup of a different key. |
| ImportText.GetPermutation | MPCAutofill/cardpicker/frontend/js/editor/features/import/importText.tsx:42 | Lookups do not depend on the order of an object's properties. |
| ImportText.ParseRenderLine | MPCAutofill/cardpicker/frontend/js/editor/features/import/importText.tsx:46-47 | A rendered line is the count's numeral, then "x ", then prefix + name. Reading it back yields exactly the count and the prefixed name. |
| ImportText.BlockLines | MPCAutofill/cardpicker/frontend/js/editor/features/import/importText.tsx:44-49 | Splitting a block on "\n" gives its rendered lines in input order, with no empty line before, after or between them. An empty list gives one empty line. This holds when names and prefix contain no newline. |
| ImportText.TextLines | MPCAutofill/cardpicker/frontend/js/editor/features/import/importText.tsx:38-53 | Splitting the whole text on "\n" gives each present type's lines in the fixed order, with exactly one empty line between neighbouring blocks. With no block it gives one empty line. |
| ImportText.BlockEmptyIff | MPCAutofill/cardpicker/frontend/js/editor/features/import/importText.tsx:44-49 | A present type's block is the empty string exactly when its list is empty. |
| ImportText.NoTypeGivesEmptyText | MPCAutofill/cardpicker/frontend/js/editor/features/import/importText.tsx:39-53 | When none of Card, Token and Cardback is present, the text is "". |
| ImportText.EmptyTextIff | MPCAutofill/cardpicker/frontend/js/editor/features/import/importText.tsx:39-53 | The text is "" exactly when no type is present, or when exactly one type is present and its list is empty. |
| ImportText.EmptyListKeepsSeparators | MPCAutofill/cardpicker/frontend/js/editor/features/import/importText.tsx:42-53 | With Card and Cardback present and Token present with an empty list, the text is the Card block, "\n\n\n\n", then the Cardback block. The empty block keeps both separators. |
| ImportText.JoinAroundEmpty | MPCAutofill/cardpicker/frontend/js/editor/features/import/importText.tsx:53 | Joining a block, an empty block and a block with "\n\n" puts four newlines between the outer blocks. |
| Strings.Join | MPCAutofill/cardpicker/frontend/js/editor/features/import/importText.tsx:49 | `join` of no parts is empty. A join starts with its first part, and with two or more parts it starts with the first part followed by the separator. |
| Strings.JoinAppend | MPCAutofill/cardpicker/frontend/js/editor/features/import/importText.tsx:53 | Joining two non-empty lists of parts puts exactly one separator between the two joined halves. |
| Strings.JoinThree | MPCAutofill/cardpicker/frontend/js/editor/features/import/importText.tsx:53 | Three parts joined have the separator between each neighbouring pair. |
| Strings.JoinEmptyIff | MPCAutofill/cardpicker/frontend/js/editor/features/import/importText.tsx:53 | With a non-empty separator, a join is empty exactly when it has no part, or one empty part. |
| Strings.SplitJoin | MPCAutofill/cardpicker/frontend/js/editor/features/import/importText.tsx:44-49 | Splitting a join of separator-free parts restores the parts. |
| Strings.SplitJoinDoubled | MPCAutofill/cardpicker/frontend/js/editor/features/import/importText.tsx:53 | Splitting a join on the doubled separator gives each part's pieces, with one empty piece between neighbouring parts. |
| Decimal.NatToString | MPCAutofill/cardpicker/frontend/js/editor/features/import/importText.tsx:47 | `${count}` for a natural count is non-empty and all digits. It starts with "0" exactly when the count is 0, and is then "0". |
| Decimal.ParseNatToString | MPCAutofill/cardpicker/frontend/js/editor/features/import/importText.tsx:47 | Reading back the rendered count gives the count. |
| Decimal.NatToStringParse | MPCAutofill/cardpicker/frontend/js/editor/features/import/importText.tsx:47 | Every canonical numeral is the rendering of its value. |

## Left out

- The `ImportText` component's rendering and hook state is UI, not logic: the dropdown item, modal show and hide, textarea value and reset on exit (importText.tsx:24-31, 72-121).
- The placeholder fetch `APIGetPlaceholderText` in the `useEffect` (importText.tsx:56-60) is an asynchronous network call. The model starts from the object it returns.
- Text submission (importText.tsx:62-70) calls `processLines` and dispatches `addImages`. Both are implemented in `common/processing` and the project slice, which are not part of this model. `ParseLine` and `Split` are inverses introduced here to state the output format; they are not models of `processLines`.
- The concrete strings of `Card`, `Token`, `Cardback` and `ReversedCardTypePrefixes` are in `common/constants`, which is not part of this model. They are parameters.
- A prefix lookup that yields `undefined` would be rendered as the text "undefined". The model assumes every card type has a prefix.
- Decimal.NatToString: counts are naturals. JavaScript's rendering of negative, fractional or very large numbers (exponent notation from 1e21) is floating-point formatting and is not modelled.
- A value that is neither `null` nor an array is not modelled, because the function's parameter type only admits arrays.
- The lemmas that compare objects (KeyOrderIrrelevant, NullSameAsAbsent) assume distinct keys or a fresh key, as every JavaScript object has.
- JavaScript strings are UTF-16 code-unit sequences. They are modelled as `seq<char>`, with no normalisation.
- `frontend/src/features/project/bulkManagement.tsx` is dropdown and modal glue around project-slice actions that are not part of this model.
- `frontend/src/app/app.tsx` is layout composition and a `beforeunload` listener.
