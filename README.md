# MusFit user accounts in Dafny

This project models the user-account part of the MusFit backend, `MusFit/FBDBP.py`. It covers:

- the user id derived from a name (`hash_name`);
- the email check (`valid_email`), which matches a regular expression;
- the `User` record: its constructor's defaults, `to_dict` and `from_dict`;
- the three accessors over the "Users" collection of the document store: `create_profile`, `fetch_user` and `delete_user`.

The collection is a map from document id to document. A document is a map from field name to a Python value (`Values.Value`). The `UserStore` class holds the collection, and its methods read and replace it.

Modules:

- `Text` holds `str.find`, `str.rfind` and the length of a run of characters, which the following modules share.
- `Values` holds Python values and their truthiness, `dict.get`, and the exceptions `create_profile` raises on its inputs.
- `Decimal` holds `str(n)` and `int(s)` on digit strings.
- `Identity` holds `hash_name`.
- `Email` holds the language of the pattern, a checker for it, and the proof that the two agree.
- `Birth` holds `birth.split('-')` and `datetime.datetime(int(birth[2]), int(birth[1]), int(birth[0]))`.
- `Users` holds the `User` record.
- `Profiles` holds the store and its accessors.

Three behaviours of the code that a reader might not expect, all kept in the model:

- **The email pattern.** In `([A-Za-z0-9]+[.-_])*…`, the class `[.-_]` is the character range from '.' to '_'. That range contains ':', '@', the digits and the upper-case letters, but not '-'. The class `[A-Z|a-z]` also contains '|'. As a result, "a.b-c@sub.domain.org", which looks like a valid address, is rejected (`Email.SeparatorRange`).
- **What `create_profile` returns.** It returns `True` or `False`, not the new user. On a malformed birth date or gender it raises an exception rather than returning a failure.
- **What `from_dict` reads.** It requires the key "user_id" but reads "userId". So every profile that `create_profile` writes fetches back with the id `None` (`Users.DecodeToDict`, `Profiles.CreateThenFetch`). Only a document that itself holds a "userId" field decodes with an id (`Users.DecodeFields`).

## Model

| member | source | states |
|---|---|---|
| Decimal.ParseShow | MusFit/FBDBP.py:198 | `int(str(n)) == n` for every natural number |
| Decimal.ShowInjective | MusFit/FBDBP.py:144 | distinct lengths give distinct numerals in the id |
| Decimal.ParseLeadingZero | MusFit/FBDBP.py:198 | `int` ignores a leading zero ("04" is 4); a lone "0" is 0 |
| Decimal.ParseZeros | MusFit/FBDBP.py:198 | `int` ignores any number of leading zeros |
| Decimal.ParsePadded | MusFit/FBDBP.py:198 | a zero-padded numeral parses to its number, whatever the width |
| Decimal.Show | MusFit/FBDBP.py:144 | `str(n)` for a length: a non-empty digit string with no leading zero except "0" itself; its inverse is `Decimal.ParseShow` |
| Decimal.ParseNat | MusFit/FBDBP.py:198 | `int(s)` on digit strings: a number exactly when `s` is a non-empty string of digits; `Decimal.ParseShow` relates it to `Show` |
| Identity.Prefix3 | MusFit/FBDBP.py:144 | `s[:3]`: a prefix of `s` of length three, or all of `s` when shorter |
| Identity.HashName | MusFit/FBDBP.py:134-144 | the id from the two prefixes and the two lengths; what it determines is stated by `Identity.HashNameCollision` |
| Identity.HashNameExample | MusFit/FBDBP.py:143-144 | the documented example: "Abdelrahman Alkhawas" gives "Abd11Alk8" |
| Identity.SampleIds | MusFit/FBDBP.py:280-281 | the ids of the other two sample users: "Ahm5Abd9" and "Oma4Zei4" |
| Identity.SameShapeSameId | MusFit/FBDBP.py:144 | first names with the same three-letter prefix and length get one id |
| Identity.KnownCollision | MusFit/FBDBP.py:144 | "Adam Smith" and "Adas Smith" collide, so the id is not unique |
| Identity.HashNameCollision | MusFit/FBDBP.py:144 | for names without digits: two ids are equal if and only if both prefixes and both lengths are equal |
| Email.ValidEmail | MusFit/FBDBP.py:153-154 | `re.fullmatch` of the pattern, written the way the pattern reads, with the split points quantified |
| Email.IsValidEmail | MusFit/FBDBP.py:147-154 | `valid_email`, splitting at the last '@' and the first '.' after it; `Email.CheckerMatchesRegex` proves it equal to `Email.ValidEmail` |
| Email.CheckerMatchesRegex | MusFit/FBDBP.py:153-154 | the checker accepts exactly the strings that the pattern fully matches |
| Email.RejectsWithoutAt | MusFit/FBDBP.py:153-154 | a string without '@' never matches |
| Email.AcceptedEndsInTld | MusFit/FBDBP.py:153-154 | every accepted address ends in '.' and two or more characters of `[A-Z\|a-z]` |
| Email.SampleAddressesAccepted | MusFit/FBDBP.py:279-281 | the three sample addresses are accepted |
| Email.SimpleCases | MusFit/FBDBP.py:153-154 | "a@b.co" is accepted; "not-an-email" is rejected |
| Email.SeparatorRange | MusFit/FBDBP.py:153 | ':' and '@' separate local-part words, '-' does not: "a:b@c.de" and "a@b@c.de" are accepted, "a.b-c@sub.domain.org" is rejected |
| Email.PipeInTopLevelDomain | MusFit/FBDBP.py:153 | '\|' is accepted in the top-level domain |
| Birth.Split | MusFit/FBDBP.py:197 | `str.split('-')`: at least one part, none holding '-'; `Birth.JoinSplit` shows nothing is lost |
| Birth.JoinSplit | MusFit/FBDBP.py:197 | `split('-')` loses nothing: joining the parts with '-' gives the input back |
| Birth.ParseBirth | MusFit/FBDBP.py:197-198 | a parsed birth date is a valid calendar date; a failure is `IndexError`, `ValueError` or `OverflowError`, and `IndexError` exactly when `split('-')` gives fewer than three parts |
| Birth.MakeDate | MusFit/FBDBP.py:198 | `datetime.datetime` on the parsed parts: a date exactly when all three parse and form a valid calendar date; `OverflowError` exactly when all parse and one exceeds a C `int`; every other failure is `ValueError` |
| Birth.OverflowRejected | MusFit/FBDBP.py:198 | a year beyond a C `int`, such as "01-01-2147483648", raises `OverflowError` |
| Birth.ParseFormatted | MusFit/FBDBP.py:197-198 | any valid date written `DD-MM-YYYY`, zero-padded to two, two and four digits, parses back to that date |
| Birth.ParseUnpadded | MusFit/FBDBP.py:197-198 | any valid date written d-m-y without padding parses back to that date too |
| Birth.ExtraPartsIgnored | MusFit/FBDBP.py:197-198 | anything after a third '-' is ignored |
| Birth.ParseExample | MusFit/FBDBP.py:177 | the documented format: "04-10-2001" is 4 October 2001 |
| Birth.SampleBirthDates | MusFit/FBDBP.py:280-281 | the other two sample dates parse to 19 July 2002 and 21 September 2000 |
| Birth.MalformedBirthRejected | MusFit/FBDBP.py:198 | a year-first string and 29 February of a common year raise `ValueError` |
| Birth.MissingPartRejected | MusFit/FBDBP.py:197-198 | a string with two parts raises `IndexError` |
| Birth.NoDashRejected | MusFit/FBDBP.py:197-198 | a string without '-', such as "04/10/2001" or "", is one part and raises `IndexError` |
| Values.Truthy | MusFit/FBDBP.py:77-82 | Python truthiness as `bool(x)` and `x or default` use it: `None`, `False`, 0, 0.0, "", [] and {} are false; `Users.NewUser` states what it gives the fields |
| Values.Or | MusFit/FBDBP.py:78-82 | `x or default`: the value when truthy, else the default; see `Users.NewUser` |
| Values.Get | MusFit/FBDBP.py:110 | `dict.get(key, None)`; `Users.Lookups` states its use |
| Users.NewUser | MusFit/FBDBP.py:69-82 | the constructor makes every collection field truthy or its empty default |
| Users.NewUserFixesNormalised | MusFit/FBDBP.py:69-82 | building a user from a user's own fields gives that user back |
| Users.Construct | MusFit/FBDBP.py:69-82 | `User(*args)` with 6 to 12 arguments keeps the six positional fields and normalises the rest |
| Users.ToDict | MusFit/FBDBP.py:114-131 | `to_dict` writes exactly the eleven field keys |
| Users.Lookups | MusFit/FBDBP.py:109-110 | one value per key, in order, each `data.get(key, None)` |
| Users.LookupsAll | MusFit/FBDBP.py:99-110 | the values collected are those of "userId", then the other eleven keys of `all_keys` in the constructor's order |
| Users.Decode | MusFit/FBDBP.py:98-112 | what `from_dict` returns; `Users.DecodeMissingKey`, `Users.DecodeFields` and `Users.DecodeToDict` state its properties |
| Users.FromDict | MusFit/FBDBP.py:98-112 | the key-by-key loop of `from_dict` computes `Decode`: `None` without the mandatory keys, else the user built from the `all_keys` values |
| Users.DecodeMissingKey | MusFit/FBDBP.py:98-107 | `from_dict` gives no user if and only if one of the six mandatory keys is missing |
| Users.DecodeFields | MusFit/FBDBP.py:99-112 | the id comes from "userId"; the leading fields come from their keys; absent optional keys give the defaults |
| Users.DecodeMandatoryOnly | MusFit/FBDBP.py:98-112 | a record with only the mandatory keys decodes to a user with a `None` id and every default |
| Users.DecodeToDict | MusFit/FBDBP.py:85-131 | decoding a `to_dict` document with "user_id" added gives back the user, except that the id is `None` |
| Profiles.NewProfile | MusFit/FBDBP.py:204 | the user `create_profile` builds; `Profiles.ProfileDocument` states its stored fields |
| Profiles.Create | MusFit/FBDBP.py:170-211 | the outcome and new collection of `create_profile`; `Profiles.CreateSucceeds` and the lemmas after it state its properties |
| Profiles.Fetch | MusFit/FBDBP.py:214-231 | what `fetch_user` returns; `Profiles.FetchCases` states its cases |
| Profiles.UserStore.CreateProfile | MusFit/FBDBP.py:170-211 | the outcome and the new collection are those of `Create`; the duplicate scan visits the ids in any order |
| Profiles.UserStore.FetchUser | MusFit/FBDBP.py:214-231 | the result is that of `Fetch`, and the decoding is done by the `from_dict` loop |
| Profiles.UserStore.DeleteUser | MusFit/FBDBP.py:254-262 | it reports whether the id was present and removes exactly that id |
| Profiles.CreateRejectsInvalidEmail | MusFit/FBDBP.py:185-186 | an invalid email returns False and writes nothing |
| Profiles.CreateRejectsDuplicate | MusFit/FBDBP.py:189-193 | an existing id returns False and writes nothing |
| Profiles.CreateRaisesOnBadInput | MusFit/FBDBP.py:197-201 | a failed date parse raises its error, `IndexError` whenever the birth date has fewer than three '-'-separated parts, and a gender other than Male or Female raises `AssertionError`; neither writes anything |
| Profiles.CreateSucceeds | MusFit/FBDBP.py:183-211 | True if and only if all four checks pass; then exactly the derived id is added and other documents are untouched; otherwise nothing changes |
| Profiles.CreateAccepted | MusFit/FBDBP.py:183-211 | when the checks pass, the collection gains exactly the derived id |
| Profiles.CreateWrites | MusFit/FBDBP.py:204-208 | a success writes the `to_dict` document of the new user under its id |
| Profiles.ProfileDocument | MusFit/FBDBP.py:204-205 | the new user's document: the given fields, `free_pass_used` False, `memberships` `[member]`, the other collections empty |
| Profiles.CreatedDocument | MusFit/FBDBP.py:204-208 | the stored document has these fields and values |
| Profiles.CreateThenFetch | MusFit/FBDBP.py:204-227 | fetching a newly created id gives back the new user, except that the id is `None` |
| Profiles.FetchCases | MusFit/FBDBP.py:221-231 | False if and only if the id is absent; otherwise `None` if and only if the document lacks a mandatory field |
| Profiles.DeleteEffect | MusFit/FBDBP.py:254-262 | deleting an absent id changes nothing; a deleted id fetches as absent; other ids fetch as before |
| Profiles.ProfilesOnlyPreserved | MusFit/FBDBP.py:204-262 | create and delete keep every document a full profile, and a full profile never fetches as `None` |
| Profiles.FirstSample | MusFit/FBDBP.py:279 | the first sample profile is created in an empty collection |
| Profiles.SecondSample | MusFit/FBDBP.py:280 | the second sample profile is created after the first |
| Profiles.ThirdSample | MusFit/FBDBP.py:281 | the third sample profile is created after the other two |
| Profiles.SampleProfiles | MusFit/FBDBP.py:279-281 | on an empty collection, the three import-time calls all return True and leave the ids "Abd11Alk8", "Ahm5Abd9" and "Oma4Zei4" |

## Left out

- The store client: its setup, the global `db` and its credentials (lines 11-14) are replaced by the `UserStore` map. Network failures and concurrent writers are not modelled.
- `print` calls are left out because they have no effect on the modelled state or results.
- The `Event` class, `fetch_event` and the `create_event`, `delete_event`, `edit_user` and `hash_event` stubs are not part of this model.
- The module-level `temp_event` is not part of this model.
- Times and timestamps are not modelled. A `datetime` is its calendar date at midnight, and the store's conversion of it to a timestamp is not modelled.
- Profiles.UserStore.DeleteUser: `true` stands for the store's write-result timestamp, and `false` for the `None` returned on an absent id.
- Profiles.UserStore.CreateProfile: the stream's order is not modelled because the source does not fix it. The scan visits the ids in any order, and the result does not depend on the order.
- Birth.ParseBirth: on Python 3.11 and later, `int()` raises `ValueError` for a numeral of more than 4300 digits, leading zeros included. The model parses such a numeral like any other: a value beyond a C `int` gives `OverflowError`, and a smaller value gives the date or the calendar's `ValueError`.
- Birth.ParseBirth: `int()` is modelled on ASCII digit strings only. Python also accepts surrounding whitespace, a sign, underscores and non-ASCII digits. Those inputs are treated here as `ValueError`.
- Identity.HashNameCollision: the "if and only if" is proved only for names without digits. With digits in a name, the prefixes and lengths can run into each other. The "if" direction (`Identity.SameShapeSameId`) holds for all names.
- Email.IsValidEmail: only which strings the pattern matches is modelled, not the running time. Python's backtracking `re` takes exponential time on inputs such as `"A" * 40 + "!"`.
- Values.Value: bytes, document references and geopoints, which the store can also hold, are not modelled because no modelled code produces them.
- Decimal.ShowInjective: lengths are natural numbers, so negative numbers are not modelled.
