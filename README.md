# User-list mirror of the `UserInterface` component

The front end of this demo is one React component, `UserInterface`. It keeps
three pieces of state:

- a local copy of the backend's user records (`users`): the server's order reversed, with records created here put in front;
- the create form's draft (`newUser`: name and email);
- the update form's draft (`updateUser`: the id as typed text, a name and an email).

It changes that state in four request handlers and five input handlers. The
load effect fetches the list and stores it reversed. Create puts the
server's new record in front and clears the draft. Update clears its draft
and rewrites name and email on every record whose id equals `parseInt` of
the typed id. Delete filters a given id out. Each input box replaces one
field of its draft. The component also derives two colour classes and a
heading from its backend flavour string.

Delete and update could be read as acting on a single record. The code
filters and maps over the whole list, so every record carrying the id is
removed or rewritten, and the model does the same. When ids are unique
(`UniqueIds`), exactly one record is affected; this is proved as a
consequence. Unique ids are up to the backend: the component never checks
them.

The model has five modules:

- `Wrappers` (`wrappers.dfy`): `Option`, and `Reply`, the success-or-failure outcome of one HTTP request.
- `Users` (`users.dfy`): the record and draft datatypes, and the list operations as functions with lemmas: `Reverse`, `Prepend`, `UpdateById`, `DeleteById`.
- `JsParseInt` (`parse_int.dfy`): JavaScript's one-argument `parseInt` (leading white space, sign, `0x` prefix, digit run, `NaN` as `None`), and its round trip with the decimal text of an id.
- `Theme` (`theme.dfy`): the colour lookup with fallback, and the heading text.
- `Component` (`user_interface.dfy`): the class `UserInterface`, with the three pieces of state as fields and one method per handler. Each request's result is a parameter.

## Model

| member | source | states |
|---|---|---|
| `Component.UserInterface.constructor` | FE/src/components/UserInterface.tsx:15-19 | The component starts with an empty list and two all-empty drafts. |
| `Component.UserInterface.FetchData` | FE/src/components/UserInterface.tsx:37-48 | A successful load replaces the list with the response reversed. A failed load leaves the list as it was. Neither draft changes. |
| `Component.UserInterface.CreateUser` | FE/src/components/UserInterface.tsx:51-64 | On success the returned record goes in front of the old list and the create draft becomes empty. On failure the list and the draft are both unchanged. The update draft is never touched. |
| `Component.UserInterface.HandleUpdateUser` | FE/src/components/UserInterface.tsx:67-86 | On success the update draft becomes empty. The list becomes `UpdateById` of the old list, using `parseInt` of the draft id, name and email as they were before the reset. On failure the list and the draft are unchanged. |
| `Component.UserInterface.DeleteUser` | FE/src/components/UserInterface.tsx:89-96 | On success the list becomes the old list without the records carrying that id. On failure the list is unchanged. Drafts are never touched. |
| `Component.UserInterface.EditNewUserName` | FE/src/components/UserInterface.tsx:120 | Only the create draft's name changes, to the typed value. The email, the update draft and the list are kept. |
| `Component.UserInterface.EditNewUserEmail` | FE/src/components/UserInterface.tsx:126 | Only the create draft's email changes, to the typed value. Everything else is kept. |
| `Component.UserInterface.EditUpdateUserId` | FE/src/components/UserInterface.tsx:145-147 | Only the update draft's id text changes. Everything else is kept. |
| `Component.UserInterface.EditUpdateUserName` | FE/src/components/UserInterface.tsx:153-155 | Only the update draft's name changes. Everything else is kept. |
| `Component.UserInterface.EditUpdateUserEmail` | FE/src/components/UserInterface.tsx:161-163 | Only the update draft's email changes. Everything else is kept. |
| `Component.CreateAfterEmptyLoad` | FE/src/components/UserInterface.tsx:37-64 | Load an empty list, type "Ann" and "a@x.com", and create with the server answering id 5. The list is then exactly `[{5, "Ann", "a@x.com"}]` and the create draft is empty again. |
| `Component.UpdateByTypedId` | FE/src/components/UserInterface.tsx:67-86 | The ids are unique. A load is followed by typing a record's decimal id, a name and an email, then a successful update. The list ends up as before, except that this one record carries the new name and email and keeps its id. |
| `Users.Reverse` | FE/src/components/UserInterface.tsx:41 | The result has the response's length, and element `i` is response element `n-1-i`. |
| `Users.ReverseInvolutive` | FE/src/components/UserInterface.tsx:41 | Reversing the loaded list again gives back the server's order. |
| `Users.ReversePermutes` | FE/src/components/UserInterface.tsx:41 | Loading neither loses nor duplicates a record: it gives the same multiset. |
| `Users.ReverseKeepsUniqueIds` | FE/src/components/UserInterface.tsx:41 | The loaded list has unique ids exactly when the response had them. |
| `Users.Prepend` | FE/src/components/UserInterface.tsx:59 | The length grows by one, the new record is first, and old element `i` is now at `i+1`. |
| `Users.DeleteUndoesPrepend` | FE/src/components/UserInterface.tsx:59 | Deleting a freshly created record whose id was not yet used restores the previous list. |
| `Users.PrependKeepsUniqueIds` | FE/src/components/UserInterface.tsx:59 | When the list had unique ids, the list after a create has unique ids exactly when the new id was not already used. |
| `Users.CountId` | FE/src/components/UserInterface.tsx:92 | The count of records with a given id is zero exactly when no record carries that id. |
| `Users.UpdateById` | FE/src/components/UserInterface.tsx:76-81 | Length, order and every id are kept. Each record the parsed id addresses gets the draft's name and email. Every other record is identical to before. |
| `Users.UpdateWithoutMatchIsIdentity` | FE/src/components/UserInterface.tsx:77 | An id text that parses to `NaN`, or to an id no record has, leaves the list unchanged. |
| `Users.UpdateIdempotent` | FE/src/components/UserInterface.tsx:76-81 | Applying the same update twice gives the same list as applying it once. |
| `Users.UpdateUniqueRewritesOne` | FE/src/components/UserInterface.tsx:76-81 | With unique ids, an update addressed to record `k` changes that record's name and email and nothing else. |
| `Users.UpdateKeepsUniqueIds` | FE/src/components/UserInterface.tsx:76-81 | Updates keep ids unique. |
| `Users.DeleteById` | FE/src/components/UserInterface.tsx:92 | No record with the id remains. The length drops by the number of records that had it. Every other record keeps its multiplicity. The result is an order-preserving subsequence of the old list. |
| `Users.DeleteAbsentIsIdentity` | FE/src/components/UserInterface.tsx:92 | Deleting an id that no record carries leaves the list unchanged. |
| `Users.DeleteIdempotent` | FE/src/components/UserInterface.tsx:92 | Deleting the same id twice gives the same list as deleting it once. |
| `Users.DeleteUniqueRemovesOne` | FE/src/components/UserInterface.tsx:92 | With unique ids, deleting record `k`'s id gives exactly the list without position `k`. |
| `Users.DeleteKeepsUniqueIds` | FE/src/components/UserInterface.tsx:92 | Deleting keeps ids unique. |
| `JsParseInt.ParseInt` | FE/src/components/UserInterface.tsx:77 | `parseInt(text)` skips leading white space, takes one optional sign and a `0x`/`0X` prefix, and reads the digits that follow. Text that is all white space gives `NaN` (`None`). A result is at most zero after a minus sign and at least zero otherwise. The lemmas below prove the round trip and the `NaN` cases. |
| `JsParseInt.ParseIntOfText` | FE/src/components/UserInterface.tsx:77 | `parseInt` of an id's decimal text, with a minus sign when negative, is that id. |
| `JsParseInt.ParseIntIgnoresTrailing` | FE/src/components/UserInterface.tsx:77 | Text after the digits is ignored: `parseInt("12abc")` is 12. The one exception is an `x` right after a bare `0`, which starts a hex number. |
| `JsParseInt.ParseIntWithoutDigits` | FE/src/components/UserInterface.tsx:77 | Text with no decimal digit gives `NaN`, which matches no record. Examples are an empty id box or a name typed by mistake. Even a hexadecimal number needs its `0` of `0x`. |
| `Theme.ThemeLookup` | FE/src/components/UserInterface.tsx:30-34 | A key with a non-empty entry gives that entry. A missing key, or an entry that is the empty (falsy) string, gives the fallback. The result is empty only when the fallback is. |
| `Theme.LookupAgreeingTable` | FE/src/components/UserInterface.tsx:22-34 | When every entry equals the fallback, the lookup gives the fallback whatever the key. |
| `Theme.BgColor` | FE/src/components/UserInterface.tsx:22-24 | The background class is `bg-gray-800` for every flavour, known or not. |
| `Theme.BtnColor` | FE/src/components/UserInterface.tsx:26-28 | The button class is `bg-gray-700 hover:bg-gray-600` for every flavour. |
| `Theme.Title` | FE/src/components/UserInterface.tsx:108-110 | The heading is the flavour with its first character upper-cased, the rest unchanged, then " Backend". An empty flavour gives " Backend". |
| `Theme.UpperAscii` | FE/src/components/UserInterface.tsx:109 | `toUpperCase` on one character: `a`-`z` map to the matching `A`-`Z`, and every other character is kept. |
| `Theme.TitleIgnoresFirstCase` | FE/src/components/UserInterface.tsx:108-110 | A flavour whose first character is already upper-case gives the same heading. |
| `Theme.TitleOfGo` | FE/src/components/UserInterface.tsx:108-110 | For the flavour the page uses, the heading is "Go Backend". |

## Left out

- The HTTP requests and their URLs (base URL from `NEXT_PUBLIC_API_URL` or `http://localhost:8000`, and the `/api/{flavor}/users` paths). Each request is a parameter of its handler: `Reply` with the payload for GET and POST, and a success flag for PUT and DELETE. What is sent in each request body is not modelled.
- Console logging in the error branches. It only writes diagnostics.
- Overlapping requests and stale closures. React handlers read the state captured at render time, and nothing stops two requests from being in flight at once. Here each handler runs to completion on the current state.
- JSX rendering, CSS class strings other than the two colours, the logo path, and the card markup in `FE/src/components/CardComponent.tsx`. Nothing in them has state or a result to state properties about.
- Page composition in `FE/src/pages/index.tsx`. It only mounts the component with flavour "go".
- `Theme.ThemeLookup`: the colour tables are finite maps, so JavaScript prototype keys such as "toString" are not modelled.
- `Theme.Title`: `toUpperCase` is modelled for ASCII letters only. Other upper-casings, including ones that change length ("ß" becomes "SS"), are not modelled, and neither are UTF-16 surrogate pairs in `charAt`/`slice`.
- `JsParseInt.ParseInt`: the number is exact. JavaScript loses precision above 2^53, and that rounding is not modelled. A parsed minus zero is plain zero, which is sound for the `===` comparison the update handler makes.
- The in-place mutation of the response array by `reverse()`. The model reverses a value.
