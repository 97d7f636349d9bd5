# Inbox message store, modelled in Dafny

The program is a small MobX/React inbox. It has two pieces of logic:

- `generateMessages(n)` builds a list of fake messages. Record `i` has subject `Message i+1`, description `Hello world!`, and is unread.
- `MessagesStore` holds an observable `messages` list. It derives two counters from that list: `messageCount` and `unreadMessageCount`.

The view writes to the store in two ways. On mount it replaces the whole list with `generateMessages(5)`. A click on a preview sets that record's `read` flag to `true`.

The model has three modules:

- `Utils` (`utils.dfy`) holds the `Message` record and the decimal text of a number, which the template literal `Message ${i + 1}` needs. It also holds the generator. `Generated(n)` is the reference function and mirrors the loop's pushes. `GenerateMessages` is the loop itself, proved equal to it.
- `Store` (`store.dfy`) holds the filter `Unread` and the class `MessagesStore`. The class has one field, `messages`. The getters are functions of that field, so a counter can never be stale: this is what `@computed` promises. `SetMessages` models the assignment in `src/App.js:12`, and `MarkRead` models the click handler in `src/MessagePreview.js:6`. `MessageCount()` is simply `|messages|`, so its properties appear in the contracts of the members that use it.
- `App` (`app.dfy`) holds `componentDidMount` and one inbox session: mount, then click the same preview twice.

`Generated` is a function, so equal arguments give equal lists. Determinism holds by construction.

`MarkRead` requires `i < |messages|`. The click handler is attached only to rendered records (`src/App.js:23`), so the code has no out-of-range path. `Generated(n)` is empty for every `n <= 0`, because the loop at `src/utils.js:5` does not run.

## Model

| member | source | states |
|---|---|---|
| `Utils.Decimal` | src/utils.js:7 | the number's text is non-empty, all digits, and starts with `0` only for zero |
| `Utils.DecimalRoundTrip` | src/utils.js:7 | reading back the digits of `k` gives `k` |
| `Utils.DecimalInjective` | src/utils.js:7 | different numbers have different texts |
| `Utils.GenerateMessages` | src/utils.js:2-14 | the loop returns `Generated(n)`: `max(n, 0)` records, record `k` with subject `"Message " + (k+1)`, description `"Hello world!"`, unread |
| `Utils.GeneratedLength` | src/utils.js:5-11 | the generator returns exactly `n` records for `n > 0`, and none for `n <= 0` |
| `Utils.GeneratedAt` | src/utils.js:5-10 | record `k` is the one pushed on iteration `k`: subject `"Message " + (k+1)`, fixed description, `read` false |
| `Utils.GeneratedSubjectsDistinct` | src/utils.js:7 | no two generated records share a subject |
| `Store.Unread` | src/store.js:16 | the filter keeps at most as many records as it is given; it keeps every unread record and nothing else |
| `Store.UnreadSnoc` | src/store.js:16 | filtering a list extended by one record extends the filtered list by that record exactly when it is unread, so order is kept |
| `Store.UnreadCountIsPositions` | src/store.js:15-17 | the filtered length equals the number of positions that hold an unread record |
| `Store.AllUnreadIff` | src/store.js:11-17 | the unread counter equals the total counter if and only if every record is unread |
| `Store.MarkedRead` | src/MessagePreview.js:6 | a click sets `read` on the clicked record; its subject, its description, the length and every other record stay the same |
| `Store.MarkedReadCount` | src/MessagePreview.js:6 | marking a record read lowers the unread count by one if it was unread, and leaves the count unchanged if it was already read |
| `Store.MarkedReadIdempotent` | src/MessagePreview.js:6 | a second click on the same record changes nothing |
| `Store.MessagesStore.constructor` | src/store.js:6 | a new store holds the empty list, and both counters are 0 |
| `Store.MessagesStore.UnreadMessageCount` | src/store.js:15-17 | the unread counter is at most the total, and equals the number of unread positions in the current list |
| `Store.MessagesStore.SetMessages` | src/App.js:12 | after the list is replaced by `s`, the store holds `s`, the total is `|s|`, and the unread counter is the unread count of `s` |
| `Store.MessagesStore.MarkRead` | src/MessagePreview.js:6 | the list becomes `MarkedRead(old list, i)`, the total is unchanged, and the unread counter drops by one exactly when record `i` was unread |
| `App.GeneratedCounts` | src/utils.js:5-11 | the generated list of size `n` has total `n` and unread count `n` |
| `App.ComponentDidMount` | src/App.js:9-13 | after mounting, the store holds `Generated(5)`, and both counters are 5 |
| `App.ClickThirdTwice` | src/App.js:9-23 | mount, then two clicks on the third preview: total 5, and the unread counter goes 5, 4, 4 |

## Left out

- Rendering, JSX and `ReactDOM.render` (`src/App.js:15-26`, `src/MessagePreview.js:5-10`, `src/index.js:8`) are display plumbing.
- The MobX machinery is left out: `@observable`, `@computed`, `observer`, proxy arrays and change notification. Derived values are plain functions of the current state instead.
- The CSS class expression in `src/MessagePreview.js:6` is presentation only. It yields `"false"` or `"read"`.
- React lifecycle timing is left out. Only the effect of `componentDidMount`, a whole-list replacement, is modelled.
- Messages are values, not shared objects. A click updates one position of the store's list. If one object sat at two positions of a list set from outside, a click in JavaScript would mark both; the model marks one.
- `Store.MessagesStore.MessageCount` has no contract of its own. It is `|messages|`, and the contracts of the constructor, `SetMessages` and `MarkRead` state its values.
- `Utils.GenerateMessages` takes an integer argument. JavaScript's loop with a fractional, `NaN` or non-numeric `n` is not modelled. Also, `push` throws `RangeError` once the array would exceed 2^32 − 1 elements, so the source fails for every `n >= 2^32`; the model's sequence is unbounded and returns `Generated(n)` instead.
- `Utils.Decimal` gives the decimal digits of an integer. JavaScript's exponent notation for numbers of 10^21 and above is not modelled.
- `read` is a boolean. The source's `read === false` test would not count a record whose `read` held some other non-boolean value; the model cannot express such a record.
