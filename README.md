# EchoMart dashboard state, in Dafny

This project models the client-side state engine of the EchoMart storefront's
dashboard page (`fe/src/page/dashbaord.tsx`). The page keeps six state cells:
the product catalog, the search term, the cart (an array of product ids in
insertion order), whether the chat sidebar is open, the chat transcript, and
the chat draft. Small handlers change these cells one event at a time, and the
page derives what it shows from them: the visible products, the cart badge,
each card's cart button and the "No products found." placeholder.

Layout:

- `lists.dfy` (module `Lists`): JavaScript's `Array.prototype.filter` and `map`,
  with "is a subsequence of" and "has no duplicates", and the lemmas that say
  what `filter` and `map` preserve.
- `text.dfy` (module `Text`): `String.prototype.trim`, `toLowerCase` and `includes`.
  `trim` strips the ECMAScript WhiteSpace and LineTerminator code points.
  `includes` is proved equal to "there is a position where the needle occurs".
- `catalog.dfy` (module `Catalog`): the `Product` record, the projection of
  feed records onto it, and the search filter.
- `cart.dfy` (module `Cart`): the cart toggle and the effect of a sequence of toggles.
- `chat.dfy` (module `Chat`): the guarded send over the transcript and the draft.
- `dashboard.dfy` (module `DashboardPage`): the `Dashboard` class. It holds the
  six cells as fields. It has one method per handler. Each mutating handler
  has a field-level `modifies` frame, so every other cell is unchanged;
  `BuyNow` has no frame and changes nothing. Its functions give the
  derived view values. `Valid()` holds in every reachable state: the
  constructor establishes it and every method preserves it. It says the cart
  holds each id at most once and no transcript message is blank.
  Two client methods, `CartScenario` and `ChatScenario`, replay event sequences
  against the class's contracts.

Toggling an id and then toggling it again restores the membership of every
id. In a duplicate-free cart (every reachable one) it restores the exact
array when the id was absent, or present as the last element
(`Cart.ToggleAbsent`, `Cart.ToggleTwiceLast`). A present id elsewhere moves
to the end (`Cart.ToggleTwicePresentAt`): `[1, 2]` becomes `[2]` and then
`[2, 1]` (`Cart.ToggleTwiceReorders`).

## Model

| member | source | states |
|---|---|---|
| `DashboardPage.Dashboard.constructor` | fe/src/page/dashbaord.tsx:13-20 | The catalog, search term, cart, transcript and draft start empty and the chat starts closed. The invariant holds. |
| `DashboardPage.Dashboard.Load` | fe/src/page/dashbaord.tsx:22-37 | When the feed arrives, the catalog becomes its projection: same length, and each product is the projection of the record at the same position. Only `products` changes. |
| `DashboardPage.Dashboard.SetSearchTerm` | fe/src/page/dashbaord.tsx:79 | The search box replaces the search term and nothing else. |
| `DashboardPage.Dashboard.ToggleCart` | fe/src/page/dashbaord.tsx:39-45 | An absent id is appended at the end. A present id is removed, the rest keep their order, and the cart shrinks by exactly one. No other id changes membership. The cart stays free of duplicates. Only `cart` changes. |
| `DashboardPage.Dashboard.BuyNow` | fe/src/page/dashbaord.tsx:47-49 | Buying produces a notice naming the product's title and price. It changes no state, because the method has no `modifies` frame. |
| `DashboardPage.Dashboard.OpenChat` | fe/src/page/dashbaord.tsx:147 | The chat bubble opens the sidebar. Nothing else changes. |
| `DashboardPage.Dashboard.CloseChat` | fe/src/component/chatBot.tsx:34 | The close button closes the sidebar. Transcript and draft are kept. |
| `DashboardPage.Dashboard.SetCurrentMessage` | fe/src/component/chatBot.tsx:62 | The chat input replaces the draft unconditionally, the empty string included. |
| `DashboardPage.Dashboard.SendMessage` | fe/src/page/dashbaord.tsx:52-57 | A blank draft leaves transcript and draft unchanged. Otherwise the untrimmed draft is appended and the draft becomes `""`. This is the session step `Chat.Send`. The transcript stays free of blank messages. |
| `DashboardPage.Dashboard.ClearChat` | fe/src/page/dashbaord.tsx:59-61 | The transcript becomes empty. The draft, the sidebar flag, the cart, the catalog and the search term are unchanged. |
| `DashboardPage.Dashboard.FilteredProducts` | fe/src/page/dashbaord.tsx:63-65 | The visible products form a subsequence of the catalog. A product is visible exactly when its lower-cased title includes the lower-cased term. Every copy of a matching product is kept, so each value occurs as often as in the catalog, and a non-matching one not at all. An empty term shows the whole catalog. |
| `DashboardPage.Dashboard.ShowsPlaceholder` | fe/src/page/dashbaord.tsx:94-95 | The placeholder shows exactly when no catalog product matches the term. |
| `DashboardPage.Dashboard.CartBadge` | fe/src/page/dashbaord.tsx:83-86 | The badge is hidden exactly when the cart is empty. Otherwise it shows the cart's length. |
| `DashboardPage.Dashboard.BadgeCountsDistinctIds` | fe/src/page/dashbaord.tsx:83-86 | In a reachable state the badge count equals the number of distinct ids in the cart. |
| `DashboardPage.Dashboard.CartButtonFor` | fe/src/page/dashbaord.tsx:128-135 | A card shows "Remove from Cart" exactly when its id is in the cart. |
| `Catalog.StripRecord` | fe/src/page/dashbaord.tsx:27-31 | The product built for a feed record carries that record's id, title, description, price and image, and nothing else. |
| `Catalog.Strip` | fe/src/page/dashbaord.tsx:26-32 | The catalog has one product per feed record. |
| `Catalog.StripCopiesFields` | fe/src/page/dashbaord.tsx:26-32 | The feed projection keeps length and order. It copies id, title, description, price and image from each record. |
| `Catalog.Matches` | fe/src/page/dashbaord.tsx:64 | The search test, under the model's per-character fold: every title matches the empty term, and a term longer than the title never matches. |
| `Catalog.Visible` | fe/src/page/dashbaord.tsx:63-65 | The filter never shows more products than the catalog has, and every product it shows is a catalog product that matches the term. |
| `Catalog.VisibleSpec` | fe/src/page/dashbaord.tsx:63-65 | The filter's result is a subsequence of the catalog. It contains every matching product and only matching products. Each matching product occurs in it as many times as in the catalog. |
| `Catalog.VisibleEmptyTerm` | fe/src/page/dashbaord.tsx:63-65 | With an empty search term the filter returns the catalog exactly. |
| `Catalog.VisibleNarrows` | fe/src/page/dashbaord.tsx:63-65 | Under the model's per-character fold, extending the search term gives a subsequence of the previous result. |
| `Catalog.PlaceholderIffNoMatch` | fe/src/page/dashbaord.tsx:94-95 | The filtered list is empty exactly when no product matches. |
| `Catalog.RedShirtScenario` | fe/src/page/dashbaord.tsx:26-32 | A one-record feed titled "Red Shirt" is found by "red" and not by "blue". |
| `Catalog.RedShirtMatches` | fe/src/page/dashbaord.tsx:64 | The title "Red Shirt" matches the term "red" and does not match "blue". |
| `Cart.Toggle` | fe/src/page/dashbaord.tsx:40-44 | The toggled id is in the new cart exactly when it was not in the old one. The cart grows by at most one. |
| `Cart.ApplyToggles` | fe/src/page/dashbaord.tsx:39-45 | After a sequence of clicks the cart holds at most one id per click more than it started with. |
| `Cart.ToggleMembership` | fe/src/page/dashbaord.tsx:39-45 | Toggling flips the membership of the toggled id and of no other id. |
| `Cart.ToggleAbsent` | fe/src/page/dashbaord.tsx:43 | Toggling an absent id appends it at the end. Toggling it again restores the array exactly. |
| `Cart.TogglePresent` | fe/src/page/dashbaord.tsx:41-42 | Toggling a present id removes every occurrence of it. The result is a subsequence of the old cart. Every other id keeps its membership. |
| `Cart.TogglePresentAt` | fe/src/page/dashbaord.tsx:41-42 | In a duplicate-free cart, toggling the id at position i deletes exactly position i. |
| `Cart.ToggleKeepsNoDup` | fe/src/page/dashbaord.tsx:39-45 | Toggling keeps a duplicate-free cart duplicate-free. |
| `Cart.ToggleTwiceMembership` | fe/src/page/dashbaord.tsx:39-45 | Toggling the same id twice restores every id's membership. |
| `Cart.ToggleTwiceLast` | fe/src/page/dashbaord.tsx:41-43 | In a duplicate-free cart whose last id is toggled, toggling it twice restores the exact array. |
| `Cart.ToggleTwicePresentAt` | fe/src/page/dashbaord.tsx:41-43 | In a duplicate-free cart, toggling the id at position i twice removes it from position i and appends it at the end. |
| `Cart.ToggleTwiceReorders` | fe/src/page/dashbaord.tsx:41-43 | The instance `[1, 2]` toggled twice on 1 gives `[2, 1]`: the original order is not restored. |
| `Cart.ToggleParity` | fe/src/page/dashbaord.tsx:39-45 | After a sequence of toggles, an id is in the cart exactly when its starting membership differs from the parity of its toggle count. |
| `Cart.ApplyTogglesKeepsNoDup` | fe/src/page/dashbaord.tsx:39-45 | Any sequence of toggles keeps a duplicate-free cart duplicate-free. |
| `Cart.CountIsOddToggledIds` | fe/src/page/dashbaord.tsx:83-86 | Starting from an empty cart, the badge count equals the number of distinct ids toggled an odd number of times. |
| `Cart.ToggleScenario` | fe/src/page/dashbaord.tsx:39-45 | Toggling 1, then 2, then 1 leaves the cart `[2]`. |
| `Chat.Send` | fe/src/page/dashbaord.tsx:52-57 | Send never removes or rewrites a message: the old transcript is a prefix of the new one, which is at most one message longer. The draft is either kept or reset to `""`. |
| `Chat.SendGuard` | fe/src/page/dashbaord.tsx:52-57 | Send ignores a blank draft. Otherwise it appends the untrimmed draft and resets it. The session changes exactly when the draft is not blank. |
| `Chat.SendTwice` | fe/src/page/dashbaord.tsx:52-57 | A second immediate send is a no-op. |
| `Chat.SendKeepsNonBlank` | fe/src/page/dashbaord.tsx:53-54 | Send keeps a transcript free of blank messages. |
| `Chat.SendScenario` | fe/src/page/dashbaord.tsx:52-57 | `"  "` is ignored. `"hello"` is appended and the draft reset. A second send changes nothing. |
| `Text.IsWhitespace` | fe/src/page/dashbaord.tsx:53 | The characters `trim` strips (ECMAScript WhiteSpace and LineTerminator). Space, tab, line feed and carriage return are among them. No digit or ASCII letter is. |
| `Text.TrimStart` | fe/src/page/dashbaord.tsx:53 | The leading trim returns a suffix of its input that does not start with whitespace. |
| `Text.TrimEnd` | fe/src/page/dashbaord.tsx:53 | The trailing trim returns a prefix of its input that does not end with whitespace. |
| `Text.Trim` | fe/src/page/dashbaord.tsx:53 | `trim()` never lengthens a string, and its result neither starts nor ends with whitespace. |
| `Text.TrimEmptyIffBlank` | fe/src/page/dashbaord.tsx:53 | `trim()` returns `""` exactly when every character is whitespace. |
| `Text.TrimStartSpec` | fe/src/page/dashbaord.tsx:53 | The leading trim removes the longest all-whitespace prefix and returns the rest of the string. |
| `Text.TrimEndSpec` | fe/src/page/dashbaord.tsx:53 | The trailing trim removes the longest all-whitespace suffix and returns the rest of the string. |
| `Text.LowerChar` | fe/src/page/dashbaord.tsx:64 | The model's per-character fold: its result is never an ASCII upper-case letter, and digits, lower-case ASCII letters and whitespace are unchanged. |
| `Text.Lower` | fe/src/page/dashbaord.tsx:64 | The model of `toLowerCase`, one character at a time, keeps the length. |
| `Text.LowerConcat` | fe/src/page/dashbaord.tsx:64 | The model's per-character fold commutes with concatenation. |
| `Text.Contains` | fe/src/page/dashbaord.tsx:64 | `includes` never finds a needle longer than the string, and always finds a needle that is a prefix of the string. |
| `Text.ContainsIff` | fe/src/page/dashbaord.tsx:64 | `includes` holds exactly when the needle occurs at some position. |
| `Text.ContainsEmpty` | fe/src/page/dashbaord.tsx:64 | Every string includes `""`. |
| `Text.ContainsFirstChar` | fe/src/page/dashbaord.tsx:64 | A string that includes a non-empty needle contains the needle's first character. |
| `Text.ContainsPrefixOfNeedle` | fe/src/page/dashbaord.tsx:64 | A string that includes `t + u` also includes `t`. |
| `Lists.Filter` | fe/src/page/dashbaord.tsx:42 | `filter` never lengthens its input, and every element it returns is an input element that passes the test. |
| `Lists.Map` | fe/src/page/dashbaord.tsx:26 | `map` returns one element per input element. |
| `Lists.FilterIsSubsequence` | fe/src/page/dashbaord.tsx:63-65 | `filter` returns a subsequence of its input. |
| `Lists.FilterCount` | fe/src/page/dashbaord.tsx:63-65 | `filter` keeps every copy of a value that passes the test and drops every copy of one that fails. |
| `Lists.FilterDropsOne` | fe/src/page/dashbaord.tsx:42 | When exactly one element fails the test, `filter` deletes that element and keeps the rest in order. |
| `Lists.FilterMembers` | fe/src/page/dashbaord.tsx:42 | An element is kept exactly when it occurs in the input and passes the test. |
| `Lists.FilterKeepsAll` | fe/src/page/dashbaord.tsx:63-65 | When every element passes, `filter` returns its input. |
| `Lists.FilterDropsAll` | fe/src/page/dashbaord.tsx:63-65 | When no element passes, `filter` returns `[]`. |
| `Lists.FilterConcat` | fe/src/page/dashbaord.tsx:42 | `filter` distributes over concatenation. |
| `Lists.FilterWeaker` | fe/src/page/dashbaord.tsx:63-65 | A weaker test keeps a supersequence of a stronger test's result. |
| `Lists.FilterKeepsNoDup` | fe/src/page/dashbaord.tsx:42 | Filtering a duplicate-free array gives a duplicate-free array. |
| `Lists.MapAt` | fe/src/page/dashbaord.tsx:26-32 | `map` keeps the length and applies the function at every position. |
| `Lists.NoDupCardinality` | fe/src/page/dashbaord.tsx:85 | A duplicate-free array's length equals its number of distinct values. |

## Left out

- The network fetch and JSON decoding (`fe/src/page/dashbaord.tsx:22-25, 36`) are I/O. `Load` takes the already-decoded feed as a parameter.
- The source has no failure path for the fetch, so the model has none. A rejected fetch never calls `Load`, so the catalog keeps its initial empty value.
- Feed records are assumed well-typed: each has the five fields with these types. A record whose `title` is missing or not a string makes `product.title.toLowerCase()` throw during render (`fe/src/page/dashbaord.tsx:64`); that crash is not modelled.
- The feed's extra fields have no fixed shape in the code (`item: any`). `FeedRecord.extra` stands for them as a string-to-string map, which the projection drops.
- Product ids are JavaScript numbers; they are `int` here, and fractional ids are not modelled. Ids decoded from JSON are never NaN, so `includes` (SameValueZero) and the `!==` of the removal filter agree on them, as `in` and `!=` do in the model.
- `price` is a JavaScript number that is only displayed. It is a `real` here and nothing is computed with it.
- `DashboardPage.Dashboard.BuyNow`: returns the notice's title and price rather than the rendered `alert` text, because number-to-text formatting and the browser dialog are not modelled.
- `Text.Lower`: folds only the upper-case letters of the Basic Latin and Latin-1 blocks. Other scripts' case mappings, and mappings that change length, are not modelled, because `toLowerCase` follows the full Unicode case tables.
- `Text.LowerChar`: is the per-character fold that `Text.Lower` applies, with the same limits: only Basic Latin and Latin-1 upper-case letters change.
- Dafny strings are sequences of Unicode code points, while JavaScript strings are sequences of UTF-16 code units. A lone surrogate cannot be represented in the model. `trim` and `includes` agree between the two on well-formed strings.
- JSX and CSS rendering are not modelled. The derived values the markup branches on are modelled as functions. The chat sidebar's static greeting line is never part of `messages` and is not modelled.
- The Enter key and the Send button both call `handleSendMessage`, so both map to `SendMessage`. The key event itself is not modelled.
- React's scheduling (`useState` updates, `useEffect` on mount, batching) is not modelled. Each handler is one atomic step that sees the state of the previous step.
- `fe/src/App.tsx` holds only route configuration and is not part of this model.
- The feed's ids are not checked for uniqueness by the code, and the model does not assume they are unique.
