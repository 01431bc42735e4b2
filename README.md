# ReWear points, items, swaps and users — a Dafny model

This project models the behaviour held in the data-model layer of the ReWear
clothing-swap marketplace (a Django application):

- **Points ledger** (`server/points/models.py`): `PointTransaction.award_points`
  and `spend_points` change a user's `points` balance and append one immutable
  transaction record holding the signed amount and the balances before and
  after. The model is the class `Points.PointLedger`: a user's
  `point_transactions` as a `seq`, tied to the `Users.User` whose `points`
  field it updates. Its invariant `Chained` says that every record is balanced
  (`balance_after == balance_before + points`), that each record opens where the
  previous one closed, and that the last one closes at the live balance. The
  lemma `ChainedReconciles` derives that the live balance is the opening balance
  plus the sum of all recorded amounts. The method `Points.ListingThenRedemptions`
  replays a short scenario against the contracts: earn 100, spend 60, then a
  refused spend of 50.
- **Referral codes**: `ReferralCode.is_valid`, with the current time passed in
  as a parameter.
- **Items** (`server/items/models.py`): the comma-separated `tag_list`, the
  ordered `image_urls`, and the default `points_value` that `save` fills in
  from the item's condition.
- **Swaps** (`server/swaps/models.py`): `can_be_accepted`, `can_be_cancelled`,
  `is_point_redemption` and `is_mystery_box`, together with the column defaults
  of a new swap.
- **Users** (`server/users/models.py`): `full_name`, and the non-negative
  `points` field, which starts at 0.

Python's `str.strip()` is modelled exactly, in module `Text`. It removes the
characters for which `str.isspace()` holds, and the model lists that set
character by character.

Files: `wrappers.dfy` (Option, Result), `text.dfy`, `users.dfy`, `points.dfy`,
`items.dfy`, `swaps.dfy`.

Two facts about the ledger code shape the model:

- `award_points` does not check that the amount is positive. The only limit
  is the non-negative balance column.
- `spend_points` does not check the sign of its amount either. A negative
  amount passes the balance check and raises the balance, and the record then
  holds a positive amount.

## Model

| member | source | states |
|---|---|---|
| `Text.IsSpace` | server/items/models.py:121 | holds for exactly the 29 code points for which Python's `str.isspace()` holds, the characters `strip()` removes: U+0009–U+000D, U+001C–U+0020, U+0085, U+00A0, U+1680, U+2000–U+200A, U+2028, U+2029, U+202F, U+205F and U+3000 |
| `Text.Strip` | server/items/models.py:121 | `strip()` yields a string with no whitespace at either end, and it is empty exactly when the input is all whitespace |
| `Text.StripIsInfix` | server/items/models.py:121 | what `strip()` keeps is a contiguous infix of the input, and only whitespace lies outside it |
| `Text.StripTrimmed` | server/items/models.py:121 | `strip()` leaves a string with no whitespace at either end unchanged |
| `Text.StripAppendSpace` | server/users/models.py:43 | whitespace appended to a string does not change what `strip()` gives |
| `Text.StripPrependSpace` | server/users/models.py:43 | whitespace prepended to a string does not change what `strip()` gives |
| `Text.LStripAppend` | server/users/models.py:43 | after the first non-whitespace character, `lstrip()` keeps the rest of the string as it is |
| `Text.RStripPrepend` | server/users/models.py:43 | before the last non-whitespace character, `rstrip()` keeps the start of the string as it is |
| `Users.User.constructor` | server/users/models.py:16 | a new user's `points` balance is 0 (the field is a `nat`) |
| `Users.User.FullName` | server/users/models.py:41-43 | the display name never has leading or trailing whitespace, and it is empty exactly when both names are blank |
| `Users.FullNameOfNonBlankNames` | server/users/models.py:43 | for two non-blank names, only the outer whitespace is dropped: lstrip(first) + " " + rstrip(last) |
| `Users.FullNameOfCleanNames` | server/users/models.py:43 | two non-empty names without surrounding whitespace give exactly first + " " + last |
| `Users.FullNameOfEmptyNames` | server/users/models.py:43 | two empty names give the empty display name |
| `Users.FullNameWithoutLastName` | server/users/models.py:43 | with an empty last name, the display name is the stripped first name |
| `Users.FullNameWithoutFirstName` | server/users/models.py:43 | with an empty first name, the display name is the stripped last name |
| `Points.AwardRecord` | server/points/models.py:62-79 | an award is recorded with the requested amount as given, the old balance as `balance_before` and old + amount as `balance_after`. It is refused only when that total would fall below zero |
| `Points.SpendRecord` | server/points/models.py:81-101 | a spend fails with InsufficientPoints exactly when the balance is below the amount. Otherwise the record holds -amount, the old balance and old - amount, and it is balanced |
| `Points.SpendIsNegatedAward` | server/points/models.py:71-79 | once past its guard, spending n writes the same record as awarding -n |
| `Points.AwardUndoesSpend` | server/points/models.py:62-101 | awarding back the amount of a successful spend restores the balance the spend started from |
| `Points.ChainedAppend` | server/points/models.py:67-77 | appending a balanced record that opens at the live balance keeps the ledger chained, now closing at that record's `balance_after` |
| `Points.ChainedReconciles` | server/points/models.py:67-99 | in a chained ledger every record is balanced and the first record opens at the opening balance. The last record closes at the live balance, which equals the opening balance plus the sum of all recorded amounts (so that sum for a new user) |
| `Points.ChainedDeterminesBalance` | server/points/models.py:67-99 | a chained ledger fixes the live balance: two balances that both close the same records are equal |
| `Points.AwardAsWritten` | server/points/models.py:62-79 | `award_points` in the code's order: the new balance is saved whatever happens next, and the record is added only if the insert succeeds |
| `Points.SpendAsWritten` | server/points/models.py:81-101 | `spend_points` in the code's order: the balance check, then the saved balance, then the record only if the insert succeeds |
| `Points.InsertedWriteKeepsChain` | server/points/models.py:67-99 | when the insert succeeds, the code as written keeps the ledger chained |
| `Points.FailedInsertBreaksChain` | server/points/models.py:67-99 | when the insert raises after the save, every non-zero award or spend that passed its guard leaves a balance the records no longer account for |
| `Points.PointLedger.constructor` | server/points/models.py:22 | a ledger opens empty over a user's current balance and satisfies the invariant |
| `Points.PointLedger.AwardPoints` | server/points/models.py:62-79 | keeps the invariant. On success the balance rises by exactly `points` and exactly the returned record is appended; on failure nothing changes. Only the balance and the ledger are modified |
| `Points.PointLedger.SpendPoints` | server/points/models.py:81-101 | keeps the invariant. When the balance is below `points` it fails with InsufficientPoints, and neither the balance nor the ledger changes. Otherwise the balance falls by exactly `points`, stays non-negative, and the one record holding -points is appended |
| `Points.IsValid` | server/points/models.py:213-221 | a code is valid iff it is active, `uses_count < max_uses`, and it has no expiry or the expiry is not before now (expiring exactly now is still valid) |
| `Points.ExhaustedCodeIsInvalid` | server/points/models.py:217-218 | a code with `uses_count >= max_uses` is invalid whatever its other fields and the time |
| `Points.ValidEarlier` | server/points/models.py:219-220 | a code that is valid now was valid at every earlier time |
| `Points.NewCodeIsValid` | server/points/models.py:194-221 | a code created with the column defaults (0 of 10 uses, active) is valid until its expiry |
| `Items.SplitOnComma` | server/items/models.py:121 | `split(',')` gives one more segment than there are commas |
| `Items.SplitCommaFree` | server/items/models.py:121 | no segment of `split(',')` holds a comma |
| `Items.JoinSplit` | server/items/models.py:121 | joining the segments with commas gives back the original string |
| `Items.SplitConcat` | server/items/models.py:121 | the segments of `a + "," + b` are those of `a` followed by those of `b` |
| `Items.SplitSegment` | server/items/models.py:121 | a string without commas is a single segment |
| `Items.SplitJoin` | server/items/models.py:121 | splitting a comma-joined list of comma-free pieces gives back the pieces |
| `Items.CleanTags` | server/items/models.py:121 | the comprehension yields at most one tag per segment |
| `Items.StripKeepsCommaFree` | server/items/models.py:121 | stripping a segment without commas leaves a string without commas |
| `Items.CleanTagsAreTags` | server/items/models.py:121 | comma-free segments yield tags that are non-empty, have no surrounding whitespace and hold no comma |
| `Items.CleanTagsOfTags` | server/items/models.py:121 | tags that are already non-empty, trimmed and comma-free pass through the comprehension unchanged |
| `Items.CleanTagsAppend` | server/items/models.py:121 | the comprehension works segment by segment, in order |
| `Items.TagList` | server/items/models.py:117-122 | an empty `tags` field gives no tags. There are at most commas + 1 tags, each non-empty, with no surrounding whitespace and no comma |
| `Items.TagListIsCleanedSplit` | server/items/models.py:120-122 | the guard on the empty field agrees with the comprehension: the tag list is always the cleaned split |
| `Items.TagListConcat` | server/items/models.py:121 | left-to-right order is kept: the tags of `a,b` are the tags of `a` followed by the tags of `b` |
| `Items.TagListSegment` | server/items/models.py:121 | a single segment yields its stripped text, or nothing exactly when it is whitespace only |
| `Items.TagListOfJoin` | server/items/models.py:117-122 | writing proper tags out comma-separated and reading them back gives the same list |
| `Items.PresentUrls` | server/items/models.py:124-136 | lists at most one URL per slot |
| `Items.PresentUrlsMembers` | server/items/models.py:124-136 | a URL is listed exactly when some slot holds it |
| `Items.PresentUrlsAppend` | server/items/models.py:124-136 | slots are listed in order, and empty slots are skipped |
| `Items.PresentUrlsOfFour` | server/items/models.py:124-136 | the four slots contribute their URLs one after another, in slot order |
| `Items.Item.ImageUrls` | server/items/models.py:124-136 | lists the URLs of the filled slots in the order primary, image 2, image 3, image 4. There are at most four, and the primary image comes first when it is present |
| `Items.DefaultPointsValue` | server/items/models.py:141-147 | the default lies between 25 and 100, and any condition other than the four choices gets 50 |
| `Items.DefaultFallsWithWear` | server/items/models.py:141-146 | the defaults for new, like_new, gently_used and worn are 100, 75, 50 and 25, so a better condition gets strictly more points |
| `Items.PointsValueOnSave` | server/items/models.py:138-149 | after `save` the points value is positive. A non-zero value is kept, and a zero value becomes the default for the condition |
| `Items.SaveIsIdempotent` | server/items/models.py:138-149 | saving twice stores the same points value as saving once |
| `Items.Item.Save` | server/items/models.py:138-149 | changes only `points_value`, which becomes the value `PointsValueOnSave` gives and is positive |
| `Items.Item.constructor` | server/items/models.py:80-85 | a new item is pending, available and redeemable, and its points value is 0 |
| `Swaps.CanBeCancelled` | server/swaps/models.py:96-98 | true iff the status is none of rejected, completed and cancelled (so one of requested, accepted, in_transit) |
| `Swaps.AcceptableIsCancellable` | server/swaps/models.py:92-98 | a swap that can be accepted (its status is requested) can also be cancelled |
| `Swaps.FinishedSwapIsFrozen` | server/swaps/models.py:92-98 | a rejected, completed or cancelled swap can be neither accepted nor cancelled |
| `Swaps.UnderwaySwapIsCancellableOnly` | server/swaps/models.py:92-98 | an accepted or in-transit swap can be cancelled but not accepted |
| `Swaps.KindsAreExclusive` | server/swaps/models.py:84-90 | `is_point_redemption` and `is_mystery_box` test the swap type, and no swap is both |
| `Swaps.NewSwapIsOpen` | server/swaps/models.py:51-53 | a new swap has status requested, type item_swap and 0 points used, and can be accepted and cancelled |

## Left out

- `User.calculate_green_score` (server/users/models.py:45-54): it uses floating-point arithmetic and `round`, and it reads global settings.
- `MysteryBoxParticipant.match_score`: a float field, and no matching algorithm exists in the code.
- `server/items/migrations/0001_initial.py`: generated schema with no behaviour.
- ORM persistence is replaced by in-memory fields and sequences. This covers `save()`, `objects.create`, ordering, indexes and cascades. A record's `created_at` and the user foreign key are not modelled, because a ledger belongs to one user.
- Points.PointLedger.AwardPoints: the code has no guard against a negative result. The database's non-negative constraint on the balance column rejects such a save. The model returns NegativeBalance and leaves the persisted state unchanged. It does not model that the Python object's `points` attribute has already been changed when that happens.
- The upper limit of the integer columns is not modelled: balances and amounts are unbounded integers. The limit depends on the database backend.
- The `max_length` limits on `description` and `tags` are not modelled.
- Image fields are Cloudinary objects, and `.url` is resolved by that library. A slot is modelled as present (`Some(url)`) or empty (`None`), with the URL taken as an opaque string.
- `timezone.now()` becomes the explicit `now` parameter of `Points.IsValid`. Timestamps are integers.
- Points.PointLedger.AwardPoints: writes the balance and its record together. The code saves the balance first (server/points/models.py:69) and inserts the record afterwards (:71-79), with no transaction around the two. If the insert raises, the new balance stays without a record. Examples are a keyword argument that is not a field, or a description over 500 characters on a backend that enforces the length. `Chained` describes the code only when the insert succeeds. `Points.AwardAsWritten` models the code's order, and the finding below records the gap.
- Points.PointLedger.SpendPoints: the same holds for the save at server/points/models.py:91 and the insert at :93-101. `Points.SpendAsWritten` models the code's order.
- Concurrency of award and spend is not modelled: the code takes no lock and opens no transaction. The model covers sequential calls only.
- `transaction_type` is modelled as an enum of the declared choices. `objects.create` does not validate choices, so other strings are not modelled. The same holds for the swap `status` and `swap_type` columns.
- Redemption approval, rejection and fulfilment, refunds, and the referral-use workflow are not modelled. `PointsRedemption` and `ReferralUse` only declare fields and uniqueness constraints; no code implements these operations.
- There is no `adjust` operation for points in the code, so none is modelled.
- `PointsSettings` and every `__str__` method are left out: they are configuration and display only.

## Findings

| source | as written | input that shows it | evidently intended | confidence | as-written member | corrected member |
|---|---|---|---|---|---|---|
| server/points/models.py:67-101 | the new balance is saved, and the transaction record is inserted afterwards in a separate statement, with no transaction around the two | `award_points(user, 10, 'earned_bonus', 'bonus', foo=1)`: the balance is saved as +10, then `objects.create` raises on the unknown field `foo`, and no record is written | the balance and its record are written together or not at all, so every balance change has its record | not executed; the order of the statements is read from the code | `Points.AwardAsWritten`, `Points.SpendAsWritten`, `Points.FailedInsertBreaksChain` | `Points.PointLedger.AwardPoints`, `Points.PointLedger.SpendPoints` (they keep `Chained`) |
