# Backend architecture core, modelled in Dafny

This project models the domain core of a Spring Boot backend for a small shop: orders and their items, stock kept per product (the `Inventory` aggregate and the stock counter on `Product`), a category tree, users, the value objects the entities are built from, the `If-Match` version guard of the REST layer, and the paging arithmetic of its list responses.

Layout:

- Value objects (`values.dfy`, `dates.dfy`, `numbers.dfy`): `ActivityStatus`, `Word`, `PhoneNumber`, `PositiveInteger`, `Date` and `DateTime`. Date text is checked against its digit pattern. A 64-bit `Long.parseLong` is written out digit by digit.
- Rules modules (`orderrules.dfy`, `inventoryrules.dfy`, `productrules.dfy`, `categoryrules.dfy`): each entity's state as an immutable view, and each mutator as a pure step function returning the reply and the resulting view. The invariants are proved as lemmas about these functions. So are the order lifecycle, the stock predicates and the acyclicity of the category tree.
- Entity classes (`orders.dfy`, `inventories.dfy`, `products.dfy`, `categories.dfy`, `users.dfy`): the entity classes themselves, whose methods update fields in place. Each method is proved to produce exactly the step its rules function prescribes. Categories live in one arena object, keyed by id, holding parent links and subcategory sets, because the Java entities point at each other.
- Stores, queries and services (`orderstore.dfy`, `orderqueries.dfy`, `orderservice.dfy`, `inventorystore.dfy`, `inventoryqueries.dfy`, `inventoryservice.dfy`): the application services over a map from id to record. This covers the repository finders with their JPQL filters and the revenue and count aggregates. A failing command leaves the table as it was, which is what the transaction rollback guarantees.
- `users.dfy` also holds `UserRepository`'s default lookups. `ifmatch.dfy` holds the header guard, and `paging.dfy` holds `PagedResponse.of`.

Failures are values. `Result` and `Outcome` carry an error kind (illegal argument, illegal state, not found, bad request, precondition failed) and the exception message the Java code uses.

## Model

| member | source | states |
|---|---|---|
| ActivityStatuses.ActivityStatus.ToString | src/main/java/org/pedrcruz/backendarch/core/domain/ActivityStatus.java:33-36 | the text is "Active" exactly when the flag is set, "Inactive" otherwise |
| ActivityStatuses.ActivityStatus.CompareTo | src/main/java/org/pedrcruz/backendarch/core/domain/ActivityStatus.java:38-47 | result in -1..1, zero exactly for equal flags, positive exactly when only this one is active |
| ActivityStatuses.Default | src/main/java/org/pedrcruz/backendarch/core/domain/ActivityStatus.java:25-27 | the persistence constructor leaves the status inactive |
| ActivityStatuses.CompareToAntisymmetric | src/main/java/org/pedrcruz/backendarch/core/domain/ActivityStatus.java:38-47 | compareTo(a, b) is the negation of compareTo(b, a) |
| ActivityStatuses.CompareToTransitive | src/main/java/org/pedrcruz/backendarch/core/domain/ActivityStatus.java:38-47 | compareTo is transitive on non-negative results |
| Words.StringCompareAntisymmetric | src/main/java/org/pedrcruz/backendarch/core/domain/Word.java:76-81 | String.compareTo as used by Word is antisymmetric |
| Words.StringCompareZeroIffEqual | src/main/java/org/pedrcruz/backendarch/core/domain/Word.java:76-81 | String.compareTo is zero exactly for equal strings |
| Words.StringComparePrefix | src/main/java/org/pedrcruz/backendarch/core/domain/Word.java:76-81 | a proper prefix orders before the longer string |
| Words.StringCompareTransitive | src/main/java/org/pedrcruz/backendarch/core/domain/Word.java:76-81 | String.compareTo is transitive on strict results |
| Words.Word.CompareTo | src/main/java/org/pedrcruz/backendarch/core/domain/Word.java:76-81 | a null word orders before any non-null one, two nulls are equal, otherwise String.compareTo of the texts |
| Words.Word.SameAs | src/main/java/org/pedrcruz/backendarch/core/domain/Word.java:88-93 | a null word matches exactly a null argument; a null argument text never matches; two texts match exactly when equivalent |
| Words.Word.SameAsString | src/main/java/org/pedrcruz/backendarch/core/domain/Word.java:113-118 | the three null cases of sameAsString and, for two texts, the equivalence of the strings |
| Words.NewWord | src/main/java/org/pedrcruz/backendarch/core/domain/Word.java:49-52 | null is a NullPointerException; otherwise success exactly when the text matches the word pattern, keeping the text, at least two characters long, and the invalid-word message on refusal |
| Words.DefaultWord | src/main/java/org/pedrcruz/backendarch/core/domain/Word.java:57-59 | the persistence constructor stores the empty string |
| Words.NewWordKeepsText | src/main/java/org/pedrcruz/backendarch/core/domain/Word.java:40-42 | getWord and toString of a constructed word give back exactly its text |
| Words.DefaultWordNotConstructible | src/main/java/org/pedrcruz/backendarch/core/domain/Word.java:126-128 | the default word's empty text is refused by the public constructor |
| Words.WordCompareIsOrder | src/main/java/org/pedrcruz/backendarch/core/domain/Word.java:76-81 | on constructed words compareTo is antisymmetric, zero exactly for equal words, and transitive |
| Words.SameAsReflexive | src/main/java/org/pedrcruz/backendarch/core/domain/Word.java:88-118 | under a reflexive equivalence a word is the same as itself (when not null) and as its own text |
| PhoneNumbers.PhoneNumber.ToString | src/main/java/org/pedrcruz/backendarch/core/domain/PhoneNumber.java:54-56 | the rendering parses back to the number |
| PhoneNumbers.PhoneNumber.CompareTo | src/main/java/org/pedrcruz/backendarch/core/domain/PhoneNumber.java:65-67 | Integer.compare: -1..1, zero exactly for equal numbers, negative exactly for a smaller number |
| PhoneNumbers.PhoneNumber.SameAs | src/main/java/org/pedrcruz/backendarch/core/domain/PhoneNumber.java:69-73 | true exactly for a non-null argument with the same number |
| PhoneNumbers.PhoneNumber.Equals | src/main/java/org/pedrcruz/backendarch/core/domain/PhoneNumber.java:81-86 | true exactly for a non-null argument with the same number |
| PhoneNumbers.PhoneNumber.SameAsInt | src/main/java/org/pedrcruz/backendarch/core/domain/PhoneNumber.java:93-95 | true exactly when the number equals the argument |
| PhoneNumbers.NewPhoneNumber | src/main/java/org/pedrcruz/backendarch/core/domain/PhoneNumber.java:37-40 | success exactly for a positive int, keeping it; otherwise the not-valid message |
| PhoneNumbers.DefaultPhoneNumber | src/main/java/org/pedrcruz/backendarch/core/domain/PhoneNumber.java:45-47 | the persistence constructor stores 0, which the public constructor refuses |
| PhoneNumbers.CompareToConsistentWithEquals | src/main/java/org/pedrcruz/backendarch/core/domain/PhoneNumber.java:65-86 | compareTo is zero exactly when equals holds, and antisymmetric |
| PositiveIntegers.PositiveInteger.ToString | src/main/java/org/pedrcruz/backendarch/core/domain/PositiveInteger.java:50-52 | the rendering parses back to the number and is all digits for a non-negative one |
| PositiveIntegers.NewPositiveInteger | src/main/java/org/pedrcruz/backendarch/core/domain/PositiveInteger.java:23-26 | success exactly for a non-negative int, value() giving it back; otherwise the must-be-positive message |
| PositiveIntegers.DefaultPositiveInteger | src/main/java/org/pedrcruz/backendarch/core/domain/PositiveInteger.java:31-33 | the persistence constructor stores 0, a value the public constructor also accepts |
| PositiveIntegers.ToStringRoundTrip | src/main/java/org/pedrcruz/backendarch/core/domain/PositiveInteger.java:40-52 | the text of a constructed value is a digit string that parses back to value() |
| Numbers.WrapInt32 | src/main/java/org/pedrcruz/backendarch/core/inventorymanagement/domain/model/Inventory.java:147-153 | Java int addition: in-range values are kept, a single overflow past the maximum loses exactly 2^32, and the result is always congruent modulo 2^32 |
| Numbers.ToDecimal | src/main/java/org/pedrcruz/backendarch/core/domain/PhoneNumber.java:54-56 | the decimal rendering is non-empty, starts with '-' exactly for negatives, and is all digits otherwise |
| Numbers.ParseLong | src/main/java/org/pedrcruz/backendarch/util/api/AbstractResource.java:26-31 | Long.parseLong: a NumberFormatException carrying the text, or a value in the 64-bit range from text that starts with a sign or a digit; empty text and a lone sign are refused |
| Numbers.ParseLongOfToDecimal | src/main/java/org/pedrcruz/backendarch/util/api/AbstractResource.java:26-31 | parsing the rendering of any 64-bit value gives the value back |
| Numbers.ParseLongRejectsOverflow | src/main/java/org/pedrcruz/backendarch/util/api/AbstractResource.java:26-31 | the rendering of an integer outside the 64-bit range does not parse |
| Numbers.DigitsValueOfNatDigits | src/main/java/org/pedrcruz/backendarch/core/domain/PhoneNumber.java:54-56 | the digits of n denote n |
| Dates.ResolveDate | src/main/java/org/pedrcruz/backendarch/core/domain/Date.java:36-40 | SMART resolution: success exactly for day 1..31, month 1..12 and a positive year; a calendar date with that year and month whose day is kept exactly when it fits the month, else clipped; failures carry the text |
| Dates.ParseDate | src/main/java/org/pedrcruz/backendarch/core/domain/Date.java:36-40 | a parse of the validated shape yields a calendar date with a four-digit year or a parse error carrying the text |
| Dates.CompareLocalDates | src/main/java/org/pedrcruz/backendarch/core/domain/Date.java:95-100 | LocalDate.compareTo is negative, positive or zero exactly for earlier, later or equal dates |
| Dates.MonthLength | src/main/java/org/pedrcruz/backendarch/core/domain/Date.java:36-40 | a month has 28..31 days, February 29 exactly in leap years |
| Dates.FormatDate | src/main/java/org/pedrcruz/backendarch/core/domain/Date.java:86-88 | the dd-MM-yyyy rendering of a date with a four-digit year matches the validation pattern |
| Dates.ParseFormatDate | src/main/java/org/pedrcruz/backendarch/core/domain/Date.java:36-40 | every calendar date with a four-digit year is parsed back from its rendering |
| Dates.ValidateDate | src/main/java/org/pedrcruz/backendarch/core/domain/Date.java:71-79 | passes exactly for non-null text that is blank or matches the pattern; null and malformed text fail with their two messages |
| Dates.Date.CompareTo | src/main/java/org/pedrcruz/backendarch/core/domain/Date.java:95-100 | null orders before any date, two nulls are equal, otherwise the chronological comparison |
| Dates.Date.IsAfter | src/main/java/org/pedrcruz/backendarch/core/domain/Date.java:106-111 | a null date is after nothing, any date is after null, otherwise strictly later |
| Dates.Date.IsBefore | src/main/java/org/pedrcruz/backendarch/core/domain/Date.java:118-123 | two nulls are not before each other, null is before any date, a date is never before null, otherwise strictly earlier |
| Dates.Date.ToString | src/main/java/org/pedrcruz/backendarch/core/domain/Date.java:86-88 | a null date raises NullPointerException; a four-digit-year date renders to text matching the pattern |
| Dates.DateFromString | src/main/java/org/pedrcruz/backendarch/core/domain/Date.java:36-40 | validation failures are passed through, blank text is today's date, other text is the parsed date |
| Dates.SmartResolution | src/main/java/org/pedrcruz/backendarch/core/domain/Date.java:36-40 | 31 February clips to the 28th or, in a leap year, the 29th; 31 April to the 30th; day 32 or 0, month 13 and year 0 are refused |
| Dates.DateFromLocalDate | src/main/java/org/pedrcruz/backendarch/core/domain/Date.java:46-51 | a null LocalDate is refused with the null message, any other is kept |
| Dates.EmptyDate | src/main/java/org/pedrcruz/backendarch/core/domain/Date.java:56-58 | the persistence constructor holds a null date |
| Dates.DateTextRoundTrip | src/main/java/org/pedrcruz/backendarch/core/domain/Date.java:36-88 | the String constructor reads toString's text back as the same date |
| Dates.AfterBeforeMatchCompare | src/main/java/org/pedrcruz/backendarch/core/domain/Date.java:95-123 | isAfter and isBefore agree with the sign of compareTo, nulls included, exclude each other, and are converses |
| Dates.CompareLocalDatesAntisymmetric | src/main/java/org/pedrcruz/backendarch/core/domain/Date.java:95-100 | LocalDate.compareTo is antisymmetric |
| Dates.CompareToIsOrder | src/main/java/org/pedrcruz/backendarch/core/domain/Date.java:95-100 | Date.compareTo is antisymmetric and transitive |
| DateTimes.CompareLocalDateTimes | src/main/java/org/pedrcruz/backendarch/core/domain/DateTime.java:86-91 | LocalDateTime.compareTo is negative, positive or zero exactly for earlier, later or equal moments |
| DateTimes.ValidateDateTime | src/main/java/org/pedrcruz/backendarch/core/domain/DateTime.java:62-70 | passes exactly for non-null text that is blank or matches the date-time pattern; null and malformed text fail with their messages |
| DateTimes.NextDay | src/main/java/org/pedrcruz/backendarch/core/domain/DateTime.java:34-38 | the next day is a calendar date strictly later than the given one with no calendar date in between |
| DateTimes.ResolveDateTime | src/main/java/org/pedrcruz/backendarch/core/domain/DateTime.java:34-38 | success exactly for a resolved date, minute and second 0..59 and hour 0..23 or 24:00:00; hour 24 is midnight of the next day; failures carry the text |
| DateTimes.ParseDateTime | src/main/java/org/pedrcruz/backendarch/core/domain/DateTime.java:34-38 | a parse of the validated shape yields a clock-shaped moment on a calendar date with no nanoseconds, or a parse error carrying the text |
| DateTimes.EndOfDayRollsOver | src/main/java/org/pedrcruz/backendarch/core/domain/DateTime.java:34-38 | 24:00:00 on 31 December is 1 January of the next year; 24:00:01 and minute 60 are refused |
| DateTimes.FormatDateTime | src/main/java/org/pedrcruz/backendarch/core/domain/DateTime.java:77-79 | the rendering starts with the dd-MM-yyyy rendering of the date |
| DateTimes.FormatDateTimeParses | src/main/java/org/pedrcruz/backendarch/core/domain/DateTime.java:34-79 | with a four-digit year the rendering matches the validation pattern and, with whole seconds, parses back to the moment |
| DateTimes.DateTime.CompareTo | src/main/java/org/pedrcruz/backendarch/core/domain/DateTime.java:86-91 | null orders before any moment, two nulls are equal, otherwise the chronological comparison |
| DateTimes.DateTime.IsAfter | src/main/java/org/pedrcruz/backendarch/core/domain/DateTime.java:97-102 | a null value is after nothing, any moment is after null, otherwise strictly later |
| DateTimes.DateTime.IsBefore | src/main/java/org/pedrcruz/backendarch/core/domain/DateTime.java:109-114 | two nulls are not before each other, null is before any moment, otherwise strictly earlier |
| DateTimes.DateTime.ToString | src/main/java/org/pedrcruz/backendarch/core/domain/DateTime.java:77-79 | a null value raises NullPointerException; otherwise text that starts with the date's rendering |
| DateTimes.DateTimeFromString | src/main/java/org/pedrcruz/backendarch/core/domain/DateTime.java:34-38 | validation failures are passed through, blank text is the current moment, other text is the parsed moment |
| DateTimes.DateTimeFromLocal | src/main/java/org/pedrcruz/backendarch/core/domain/DateTime.java:44-49 | a null LocalDateTime is refused with the null message, any other is kept and returned by getDate |
| DateTimes.EmptyDateTime | src/main/java/org/pedrcruz/backendarch/core/domain/DateTime.java:54-56 | the persistence constructor holds a null value |
| DateTimes.DateTimeTextRoundTrip | src/main/java/org/pedrcruz/backendarch/core/domain/DateTime.java:34-79 | the String constructor reads toString's text back as the same moment (whole seconds) |
| DateTimes.AfterBeforeMatchCompare | src/main/java/org/pedrcruz/backendarch/core/domain/DateTime.java:86-114 | isAfter and isBefore agree with the sign of compareTo, nulls included, exclude each other, and are converses |
| Paging.CeilDiv | src/main/java/org/pedrcruz/backendarch/api/dto/PagedResponse.java:22-23 | Math.ceil of a quotient by a positive size: the least q with a at most q times the size |
| Paging.CeilDivUnique | src/main/java/org/pedrcruz/backendarch/api/dto/PagedResponse.java:22-23 | the ceiling is the only integer with that bracketing |
| Paging.SaturateInt32 | src/main/java/org/pedrcruz/backendarch/api/dto/PagedResponse.java:23 | the `(int)` cast of an integral double: values in the int range are kept, larger ones become Integer.MAX_VALUE, smaller ones Integer.MIN_VALUE |
| Paging.PageCount | src/main/java/org/pedrcruz/backendarch/api/dto/PagedResponse.java:23 | for a positive size the ceiling of totalElements over size while it fits in an int, saturated to a bound otherwise; a negative size mirrors a positive one; a zero size gives 0 exactly for no elements, else Integer.MAX_VALUE or MIN_VALUE |
| Paging.Of | src/main/java/org/pedrcruz/backendarch/api/dto/PagedResponse.java:22-36 | the fields as given, totalPages the saturated page count for every size, zero included; first exactly on page 0, hasPrevious exactly after it, hasNext exactly when not last; last is page >= totalPages - 1 with the int wrap at MIN_VALUE, and while the count fits it holds exactly when no element lies beyond the page |
| Paging.ZeroSizeSaturates | src/main/java/org/pedrcruz/backendarch/api/dto/PagedResponse.java:22-33 | a zero size with elements gives Integer.MAX_VALUE pages, so only the pages from MAX_VALUE - 1 up are last |
| Paging.LastMeansNoMoreElements | src/main/java/org/pedrcruz/backendarch/api/dto/PagedResponse.java:32-33 | page >= totalPages - 1 holds exactly when no element lies beyond the page |
| Paging.EmptyResult | src/main/java/org/pedrcruz/backendarch/api/dto/PagedResponse.java:22-36 | no elements gives no pages for every size, zero included, and every non-negative page is the last with no next |
| Paging.ExactPages | src/main/java/org/pedrcruz/backendarch/api/dto/PagedResponse.java:22-23 | a multiple of a positive size gives exactly that many pages, for any count in the int range |
| IfMatch.EnsureIfMatchHeader | src/main/java/org/pedrcruz/backendarch/util/api/AbstractResource.java:33-40 | success exactly for a present non-empty header, returned as given; otherwise 400 with the conditional-request message |
| IfMatch.GetVersionFromIfMatchHeader | src/main/java/org/pedrcruz/backendarch/util/api/AbstractResource.java:26-31 | null header is a NullPointerException, a lone quote an out-of-range substring, a quoted header parses its middle, any other header is parsed whole |
| IfMatch.QuotedAndBareAgree | src/main/java/org/pedrcruz/backendarch/util/api/AbstractResource.java:26-31 | the strong tag "N" and the bare N both give version N |
| IfMatch.WeakTagRejected | src/main/java/org/pedrcruz/backendarch/util/api/AbstractResource.java:26-31 | a weak tag W/"N" is refused |
| IfMatch.ClosingQuoteNotChecked | src/main/java/org/pedrcruz/backendarch/util/api/AbstractResource.java:26-31 | the last character is dropped without checking it is a quote; a lone quote fails |
| IfMatch.GuardedVersion | src/main/java/org/pedrcruz/backendarch/util/api/AbstractResource.java:26-40 | a request carrying the tag of version N passes the header guard and gives back N |
| Users.User.constructor | src/main/java/org/pedrcruz/backendarch/core/usermanagement/domain/model/User.java:103-106 | a fresh user holds the given username and password, is enabled, and has no id, version, name or roles |
| Users.User.SetPassword | src/main/java/org/pedrcruz/backendarch/core/usermanagement/domain/model/User.java:142-144 | null is a NullPointerException that changes nothing; otherwise only the password changes |
| Users.User.AddAuthority | src/main/java/org/pedrcruz/backendarch/core/usermanagement/domain/model/User.java:146-148 | the role is added to the set and nothing else changes; a role already held changes nothing |
| Users.User.IsAccountNonExpired | src/main/java/org/pedrcruz/backendarch/core/usermanagement/domain/model/User.java:149-152 | equal to the enabled flag |
| Users.User.IsAccountNonLocked | src/main/java/org/pedrcruz/backendarch/core/usermanagement/domain/model/User.java:154-157 | equal to the enabled flag |
| Users.User.IsCredentialsNonExpired | src/main/java/org/pedrcruz/backendarch/core/usermanagement/domain/model/User.java:159-162 | equal to the enabled flag |
| Users.User.AnonymizeAndDisable | src/main/java/org/pedrcruz/backendarch/core/usermanagement/domain/model/User.java:165-170 | username becomes the uuid at acme.com, name and password the placeholders, enabled false, everything else kept; every account-status check is then false |
| Users.NewUserCredentials | src/main/java/org/pedrcruz/backendarch/core/usermanagement/domain/model/User.java:103-106 | fails with NullPointerException exactly for a null password; otherwise a fresh enabled user with the credentials and nothing else |
| Users.NewUser | src/main/java/org/pedrcruz/backendarch/core/usermanagement/domain/model/User.java:118-122 | as the constructor, with the full name set |
| Users.NewUserWithRole | src/main/java/org/pedrcruz/backendarch/core/usermanagement/domain/model/User.java:135-140 | as newUser, with exactly the one given authority |
| UserRepository.GetById | src/main/java/org/pedrcruz/backendarch/core/usermanagement/domain/repositories/UserRepository.java:24-28 | success exactly for a stored enabled user, which is returned; otherwise NotFound for the user id |
| UserRepository.GetByIdAndVersion | src/main/java/org/pedrcruz/backendarch/core/usermanagement/domain/repositories/UserRepository.java:38-45 | getById's failure passes through, no version means getById, a given version must equal the stored one, otherwise 412 with the modified-by-another message |
| UserRepository.UnversionedUserAlwaysStale | src/main/java/org/pedrcruz/backendarch/core/usermanagement/domain/repositories/UserRepository.java:38-45 | an enabled user with no stored version fails every versioned lookup with 412 |
| OrderStatuses.OrderStatus.IsActive | src/main/java/org/pedrcruz/backendarch/core/ordermanagement/domain/model/OrderStatus.java:45-47 | true exactly for PENDING, CONFIRMED, PREPARING and READY |
| OrderStatuses.OrderStatus.CanBeModified | src/main/java/org/pedrcruz/backendarch/core/ordermanagement/domain/model/OrderStatus.java:49-51 | true exactly for PENDING, and a modifiable order can be cancelled |
| OrderStatuses.OrderStatus.CanBeCancelled | src/main/java/org/pedrcruz/backendarch/core/ordermanagement/domain/model/OrderStatus.java:53-55 | true exactly for PENDING and CONFIRMED, both of them active |
| OrderStatuses.NameIsInjective | src/main/java/org/pedrcruz/backendarch/core/ordermanagement/domain/model/OrderStatus.java:4-9 | distinct constants have distinct names, so a status literal picks one constant |
| OrderStatuses.EachPredicateSelectsOneConstant | src/main/java/org/pedrcruz/backendarch/core/ordermanagement/domain/model/OrderStatus.java:21-43 | every status is one of the six, and each isX predicate holds for exactly its constant |
| OrderStatuses.Stage | src/main/java/org/pedrcruz/backendarch/core/ordermanagement/domain/model/OrderStatus.java:45-47 | the lifecycle rank is at most 4, and 4 exactly for the two inactive states |
| OrderStatuses.MovesGoForward | src/main/java/org/pedrcruz/backendarch/core/ordermanagement/domain/model/Order.java:145-203 | every status change the order methods make goes strictly forward and starts from an active state |
| OrderRules.LineCheck | src/main/java/org/pedrcruz/backendarch/core/ordermanagement/domain/model/OrderItem.java:56-69 | the OrderItem constructor's checks pass exactly for a product, a positive quantity and a non-negative price, each failure carrying its message in source order |
| OrderRules.NewLine | src/main/java/org/pedrcruz/backendarch/core/ordermanagement/domain/model/OrderItem.java:56-74 | a new line is unsaved, keeps product, quantity and price, and is valid when they are in range |
| OrderRules.WithQuantity | src/main/java/org/pedrcruz/backendarch/core/ordermanagement/domain/model/OrderItem.java:80-86 | updateQuantity replaces the quantity, keeps id, product and price, and keeps the line valid for a positive quantity |
| OrderRules.WithUnitPrice | src/main/java/org/pedrcruz/backendarch/core/ordermanagement/domain/model/OrderItem.java:91-97 | updateUnitPrice replaces the price, keeps id, product and quantity, and keeps the line valid for a non-negative price |
| OrderRules.FindProduct | src/main/java/org/pedrcruz/backendarch/core/ordermanagement/domain/model/Order.java:94-101 | the index of the first line for the product: no earlier line has it, and the size of the list when none does |
| OrderRules.FindItem | src/main/java/org/pedrcruz/backendarch/core/ordermanagement/domain/model/Order.java:130-138 | where updateItemQuantity's search stops: the first line whose id is null or equal to the given one, no earlier line is either, the size of the list when none is |
| OrderRules.Without | src/main/java/org/pedrcruz/backendarch/core/ordermanagement/domain/model/Order.java:113-121 | removeIf never lengthens the list |
| OrderRules.Accept | src/main/java/org/pedrcruz/backendarch/core/ordermanagement/domain/model/Order.java:258-262 | a successful item mutation leaves exactly the new lines with the total recalculated as their sum |
| OrderRules.AddItem | src/main/java/org/pedrcruz/backendarch/core/ordermanagement/domain/model/Order.java:88-108 | refused with the status message unless PENDING; a failure changes nothing; a success keeps customer, status and notes and sets the total to the sum of the new lines |
| OrderRules.RemoveItem | src/main/java/org/pedrcruz/backendarch/core/ordermanagement/domain/model/Order.java:113-121 | refused unless PENDING; a failure changes nothing; a success removes exactly the lines with that id, and a null id removes nothing |
| OrderRules.UpdateItemQuantity | src/main/java/org/pedrcruz/backendarch/core/ordermanagement/domain/model/Order.java:126-140 | refused unless PENDING; a failure changes nothing; an id no saved line has is item-not-found; a success keeps the line count and sets the total to the sum of the lines |
| OrderRules.Confirm | src/main/java/org/pedrcruz/backendarch/core/ordermanagement/domain/model/Order.java:145-155 | succeeds exactly from PENDING with at least one line, moving to CONFIRMED; the two refusals keep the order and carry their messages |
| OrderRules.StartPreparing | src/main/java/org/pedrcruz/backendarch/core/ordermanagement/domain/model/Order.java:160-167 | succeeds exactly from CONFIRMED, moving to PREPARING; otherwise refused with its message and nothing changed |
| OrderRules.MarkAsReady | src/main/java/org/pedrcruz/backendarch/core/ordermanagement/domain/model/Order.java:172-179 | succeeds exactly from PREPARING, moving to READY; otherwise refused with its message and nothing changed |
| OrderRules.Deliver | src/main/java/org/pedrcruz/backendarch/core/ordermanagement/domain/model/Order.java:184-191 | succeeds exactly from READY, moving to DELIVERED; otherwise refused with its message and nothing changed |
| OrderRules.Cancel | src/main/java/org/pedrcruz/backendarch/core/ordermanagement/domain/model/Order.java:196-203 | succeeds exactly when the status can be cancelled, moving to CANCELLED; otherwise refused with the message naming the status |
| OrderRules.UpdateNotes | src/main/java/org/pedrcruz/backendarch/core/ordermanagement/domain/model/Order.java:208-211 | always succeeds and changes only the notes |
| OrderRules.Apply | src/main/java/org/pedrcruz/backendarch/core/ordermanagement/domain/model/Order.java:88-211 | a failed call changes nothing, the status either stays or makes one lifecycle move, and the customer never changes |
| OrderRules.SumTotalsAppend | src/main/java/org/pedrcruz/backendarch/core/ordermanagement/domain/model/Order.java:258-262 | appending a line adds its price to the recalculated total |
| OrderRules.SumTotalsPrefix | src/main/java/org/pedrcruz/backendarch/core/ordermanagement/domain/model/Order.java:258-262 | the running sum of the reduce over a growing prefix |
| OrderRules.SumTotalsNonNegative | src/main/java/org/pedrcruz/backendarch/core/ordermanagement/domain/model/Order.java:258-262 | the total of valid lines is never negative |
| OrderRules.SumQuantitiesAtLeastLines | src/main/java/org/pedrcruz/backendarch/core/ordermanagement/domain/model/Order.java:230-232 | with every quantity positive, the exact sum of the quantities is at least the number of lines |
| OrderRules.WithoutMembers | src/main/java/org/pedrcruz/backendarch/core/ordermanagement/domain/model/Order.java:113-121 | exactly the lines with a different id survive removeIf |
| OrderRules.WithoutSnoc | src/main/java/org/pedrcruz/backendarch/core/ordermanagement/domain/model/Order.java:113-121 | removeIf over an extended list keeps the new line exactly when its id differs |
| OrderRules.WithoutStep | src/main/java/org/pedrcruz/backendarch/core/ordermanagement/domain/model/Order.java:113-121 | removeIf over a growing prefix keeps the next line exactly when its id differs |
| OrderRules.WithoutNothing | src/main/java/org/pedrcruz/backendarch/core/ordermanagement/domain/model/Order.java:113-121 | removing a null id from saved lines removes nothing |
| OrderRules.WithoutKeepsDistinct | src/main/java/org/pedrcruz/backendarch/core/ordermanagement/domain/model/Order.java:113-121 | removal keeps at most one line per product |
| OrderRules.UpdatedLinesStayDistinct | src/main/java/org/pedrcruz/backendarch/core/ordermanagement/domain/model/Order.java:94-101 | replacing a line by one for the same product keeps at most one line per product |
| OrderRules.AppendedLineStaysDistinct | src/main/java/org/pedrcruz/backendarch/core/ordermanagement/domain/model/Order.java:104-107 | appending a line for an absent product keeps at most one line per product |
| OrderRules.SetQuantityPreservesWellFormed | src/main/java/org/pedrcruz/backendarch/core/ordermanagement/domain/model/Order.java:126-140 | setting a positive quantity on one line keeps the order well formed |
| OrderRules.AppendPreservesWellFormed | src/main/java/org/pedrcruz/backendarch/core/ordermanagement/domain/model/Order.java:104-107 | appending a valid line for an absent product keeps the order well formed |
| OrderRules.AddItemPreservesWellFormed | src/main/java/org/pedrcruz/backendarch/core/ordermanagement/domain/model/Order.java:88-108 | addItem keeps lines valid, one line per product, the total equal to the lines' sum, and non-pending orders non-empty |
| OrderRules.RemoveItemPreservesWellFormed | src/main/java/org/pedrcruz/backendarch/core/ordermanagement/domain/model/Order.java:113-121 | removeItem keeps the order well formed |
| OrderRules.UpdateItemQuantityPreservesWellFormed | src/main/java/org/pedrcruz/backendarch/core/ordermanagement/domain/model/Order.java:126-140 | updateItemQuantity keeps the order well formed |
| OrderRules.ApplyPreservesWellFormed | src/main/java/org/pedrcruz/backendarch/core/ordermanagement/domain/model/Order.java:88-211 | every mutator keeps the order well formed |
| OrderRules.RunPreservesWellFormed | src/main/java/org/pedrcruz/backendarch/core/ordermanagement/domain/model/Order.java:88-211 | any sequence of mutator calls keeps the order well formed |
| OrderRules.RunNeverGoesBack | src/main/java/org/pedrcruz/backendarch/core/ordermanagement/domain/model/Order.java:145-203 | along any sequence of calls the lifecycle rank never decreases, and an inactive status never changes |
| OrderRules.TerminalOrdersAreFrozen | src/main/java/org/pedrcruz/backendarch/core/ordermanagement/domain/model/Order.java:145-211 | after any sequence of calls a delivered or cancelled order keeps its status, lines, total and customer |
| OrderRules.AddItemMergePath | src/main/java/org/pedrcruz/backendarch/core/ordermanagement/domain/model/Order.java:94-101 | on the merge path addItem refuses a non-positive merged quantity and otherwise sets exactly that line's quantity to the sum |
| OrderRules.AddItemAppendPath | src/main/java/org/pedrcruz/backendarch/core/ordermanagement/domain/model/Order.java:104-107 | on the append path addItem refuses with the constructor's error or appends exactly the constructed line |
| OrderRules.RemoveItemPath | src/main/java/org/pedrcruz/backendarch/core/ordermanagement/domain/model/Order.java:113-121 | on a pending order with saved lines removeItem keeps exactly the lines with a different id |
| OrderRules.UpdateItemQuantityPath | src/main/java/org/pedrcruz/backendarch/core/ordermanagement/domain/model/Order.java:126-140 | at the line the search stops on, a non-positive quantity is refused, a positive one replaces exactly that line's quantity |
| OrderRules.AddingPresentProductMerges | src/main/java/org/pedrcruz/backendarch/core/ordermanagement/domain/model/Order.java:94-101 | adding a product already present changes only its line: quantity increased, id and original unit price kept, every other line unchanged |
| OrderRules.AddingNewProductAppends | src/main/java/org/pedrcruz/backendarch/core/ordermanagement/domain/model/Order.java:104-107 | adding an absent product with valid quantity and price appends one unsaved line priced as given |
| OrderRules.UpdatingPresentItem | src/main/java/org/pedrcruz/backendarch/core/ordermanagement/domain/model/Order.java:126-140 | on a saved line with a unique id, updateItemQuantity sets exactly that line's quantity |
| Orders.OrderItem.constructor | src/main/java/org/pedrcruz/backendarch/core/ordermanagement/domain/model/OrderItem.java:56-74 | a new item belongs to the given order, is unsaved, and holds the product, quantity, price and their product as total |
| Orders.OrderItem.Loaded | src/main/java/org/pedrcruz/backendarch/core/ordermanagement/domain/model/OrderItem.java:50-51 | the persistence constructor restores every stored field |
| Orders.OrderItem.UpdateQuantity | src/main/java/org/pedrcruz/backendarch/core/ordermanagement/domain/model/OrderItem.java:80-86 | a non-positive quantity is refused and changes nothing; otherwise the quantity is replaced and the total recomputed; validity is kept |
| Orders.OrderItem.UpdateUnitPrice | src/main/java/org/pedrcruz/backendarch/core/ordermanagement/domain/model/OrderItem.java:91-97 | a null or negative price is refused and changes nothing; otherwise the price is replaced and the total recomputed; validity is kept |
| Orders.OrderItem.CalculateTotalPrice | src/main/java/org/pedrcruz/backendarch/core/ordermanagement/domain/model/OrderItem.java:102-104 | on a valid line it equals the stored total and is never negative |
| Orders.OrderItem.Equals | src/main/java/org/pedrcruz/backendarch/core/ordermanagement/domain/model/OrderItem.java:107-112 | equal exactly to itself or to an item with the same non-null id; two distinct unsaved items are never equal |
| Orders.NewOrderItem | src/main/java/org/pedrcruz/backendarch/core/ordermanagement/domain/model/OrderItem.java:56-69 | a null order, null product, non-positive quantity and null or negative price are refused in that order; otherwise a fresh item for that order holding the new line |
| Orders.LinesOf | src/main/java/org/pedrcruz/backendarch/core/ordermanagement/domain/model/Order.java:216-218 | the lines of a list of items are their views, position by position |
| Orders.LinesOfPointwise | src/main/java/org/pedrcruz/backendarch/core/ordermanagement/domain/model/Order.java:216-218 | items whose views are the given lines have exactly those lines |
| Orders.LinesOfSnoc | src/main/java/org/pedrcruz/backendarch/core/ordermanagement/domain/model/Order.java:104-105 | appending an item appends its view |
| Orders.Order.constructor | src/main/java/org/pedrcruz/backendarch/core/ordermanagement/domain/model/Order.java:72-83 | a new order is unsaved, PENDING, with no lines, total zero and the given customer and notes |
| Orders.Order.ItemsAreDistinct | src/main/java/org/pedrcruz/backendarch/core/ordermanagement/domain/model/Order.java:94-107 | two positions of a well-formed order hold different item objects |
| Orders.Order.RecalculateTotal | src/main/java/org/pedrcruz/backendarch/core/ordermanagement/domain/model/Order.java:258-262 | the total becomes the sum of the line totals and nothing else changes |
| Orders.Order.SetQuantityAt | src/main/java/org/pedrcruz/backendarch/core/ordermanagement/domain/model/Order.java:96-99 | a non-positive quantity is refused and changes nothing; otherwise exactly that line's quantity is replaced and the total recalculated |
| Orders.Order.AddItem | src/main/java/org/pedrcruz/backendarch/core/ordermanagement/domain/model/Order.java:88-108 | the reply and the new order are exactly those OrderRules.AddItem prescribes, and the order stays valid |
| Orders.Order.AddToPending | src/main/java/org/pedrcruz/backendarch/core/ordermanagement/domain/model/Order.java:93-107 | after the status check, the reply and new order are those OrderRules.AddItem prescribes |
| Orders.Order.MergeLine | src/main/java/org/pedrcruz/backendarch/core/ordermanagement/domain/model/Order.java:94-101 | on the product's line, the reply and new order are those OrderRules.AddItem prescribes |
| Orders.Order.AddNewLine | src/main/java/org/pedrcruz/backendarch/core/ordermanagement/domain/model/Order.java:104-107 | with no line for the product, the reply and new order are those OrderRules.AddItem prescribes |
| Orders.Order.FindLine | src/main/java/org/pedrcruz/backendarch/core/ordermanagement/domain/model/Order.java:94-95 | the loop throws NullPointerException exactly for a null product with some line; otherwise it stops at the product's line |
| Orders.Order.AppendLine | src/main/java/org/pedrcruz/backendarch/core/ordermanagement/domain/model/Order.java:104-106 | the item joins the list and the footprint, and the total is recalculated over the extended lines |
| Orders.Order.AppendLoaded | src/main/java/org/pedrcruz/backendarch/core/ordermanagement/domain/model/Order.java:40 | a stored line is appended as a fresh item and nothing else changes |
| Orders.Order.SetStored | src/main/java/org/pedrcruz/backendarch/core/ordermanagement/domain/model/Order.java:31-49 | the stored key, status and total are written back and nothing else changes |
| Orders.Order.RemoveItem | src/main/java/org/pedrcruz/backendarch/core/ordermanagement/domain/model/Order.java:113-121 | the reply and the new order are exactly those OrderRules.RemoveItem prescribes, and the order stays valid |
| Orders.Order.RemoveKept | src/main/java/org/pedrcruz/backendarch/core/ordermanagement/domain/model/Order.java:118-120 | the kept items replace the list and the total is recalculated, as OrderRules.RemoveItem prescribes |
| Orders.Order.SetItems | src/main/java/org/pedrcruz/backendarch/core/ordermanagement/domain/model/Order.java:118 | the kept items become the list and nothing else changes |
| Orders.Order.KeptItems | src/main/java/org/pedrcruz/backendarch/core/ordermanagement/domain/model/Order.java:118 | the scan throws NullPointerException exactly when some item is unsaved; otherwise it keeps exactly the items whose id differs, in order |
| Orders.Order.UpdateItemQuantity | src/main/java/org/pedrcruz/backendarch/core/ordermanagement/domain/model/Order.java:126-140 | the reply and the new order are exactly those OrderRules.UpdateItemQuantity prescribes, and the order stays valid |
| Orders.Order.UpdatePendingQuantity | src/main/java/org/pedrcruz/backendarch/core/ordermanagement/domain/model/Order.java:131-139 | after the status check, the reply and new order are those OrderRules.UpdateItemQuantity prescribes |
| Orders.Order.FindItemIndex | src/main/java/org/pedrcruz/backendarch/core/ordermanagement/domain/model/Order.java:131-132 | the loop stops where OrderRules.FindItem says |
| Orders.Order.Confirm | src/main/java/org/pedrcruz/backendarch/core/ordermanagement/domain/model/Order.java:145-155 | reply and new order as OrderRules.Confirm prescribes |
| Orders.Order.StartPreparing | src/main/java/org/pedrcruz/backendarch/core/ordermanagement/domain/model/Order.java:160-167 | reply and new order as OrderRules.StartPreparing prescribes |
| Orders.Order.MarkAsReady | src/main/java/org/pedrcruz/backendarch/core/ordermanagement/domain/model/Order.java:172-179 | reply and new order as OrderRules.MarkAsReady prescribes |
| Orders.Order.Deliver | src/main/java/org/pedrcruz/backendarch/core/ordermanagement/domain/model/Order.java:184-191 | reply and new order as OrderRules.Deliver prescribes |
| Orders.Order.Cancel | src/main/java/org/pedrcruz/backendarch/core/ordermanagement/domain/model/Order.java:196-203 | reply and new order as OrderRules.Cancel prescribes |
| Orders.Order.UpdateNotes | src/main/java/org/pedrcruz/backendarch/core/ordermanagement/domain/model/Order.java:208-211 | only the notes change, as OrderRules.UpdateNotes prescribes |
| Orders.Order.ItemCount | src/main/java/org/pedrcruz/backendarch/core/ordermanagement/domain/model/Order.java:223-225 | the number of lines |
| Orders.Order.TotalProductCount | src/main/java/org/pedrcruz/backendarch/core/ordermanagement/domain/model/Order.java:230-232 | the int sum of the line quantities: in the int range and congruent to the exact sum modulo 2^32, equal to it while it fits, and then at least the number of lines when every quantity is positive |
| Orders.Order.TotalProductCountWraps | src/main/java/org/pedrcruz/backendarch/core/ordermanagement/domain/model/Order.java:230-232 | two lines of 2^30 units sum to 2^31, which the int sum wraps to Integer.MIN_VALUE, below the line count |
| Orders.Order.IsActive | src/main/java/org/pedrcruz/backendarch/core/ordermanagement/domain/model/Order.java:237-239 | true exactly in the four in-progress states |
| Orders.Order.CanBeModified | src/main/java/org/pedrcruz/backendarch/core/ordermanagement/domain/model/Order.java:244-246 | true exactly when PENDING |
| Orders.Order.CanBeCancelled | src/main/java/org/pedrcruz/backendarch/core/ordermanagement/domain/model/Order.java:251-253 | true exactly when PENDING or CONFIRMED |
| Orders.NewOrder | src/main/java/org/pedrcruz/backendarch/core/ordermanagement/domain/model/Order.java:72-83 | a null customer is refused with its message; otherwise a fresh valid, unsaved, empty PENDING order with total zero |
| Orders.Materialize | src/main/java/org/pedrcruz/backendarch/core/ordermanagement/domain/model/Order.java:31-63 | loading a stored well-formed row gives a fresh valid order under that key whose view is the row |
| Orders.AppendAll | src/main/java/org/pedrcruz/backendarch/core/ordermanagement/domain/model/Order.java:40 | the stored lines are appended in order as fresh items |
| OrderStore.AssignIds | src/main/java/org/pedrcruz/backendarch/core/ordermanagement/domain/model/Order.java:31-40 | save keeps the number of lines |
| OrderStore.Save | src/main/java/org/pedrcruz/backendarch/core/ordermanagement/domain/repositories/OrderRepository.java:16 | the order is stored under its key with generated ids for its unsaved lines, every other field as given, every other order untouched, the line generator advanced by the number of unsaved lines |
| OrderStore.GetById | src/main/java/org/pedrcruz/backendarch/core/ordermanagement/domain/repositories/OrderRepository.java:20-24 | success exactly for a stored id, giving the stored order; otherwise NotFound naming Order and the id |
| OrderStore.Command | src/main/java/org/pedrcruz/backendarch/core/ordermanagement/application/OrderServiceImpl.java:62-116 | an unknown id is NotFound with the table unchanged; a failed mutator saves nothing; the keys, the order generator and every other order are kept; the reply is the mutator's |
| OrderStore.CreateOrder | src/main/java/org/pedrcruz/backendarch/core/ordermanagement/application/OrderServiceImpl.java:35-38 | a null customer is refused with the table unchanged; otherwise a new PENDING order saved under the next key |
| OrderStore.AddItemById | src/main/java/org/pedrcruz/backendarch/core/ordermanagement/application/OrderServiceImpl.java:54-60 | the order is looked up first, then the active product (NotFound for a missing or inactive one), whose current price becomes the unit price |
| OrderStore.DeleteOrder | src/main/java/org/pedrcruz/backendarch/core/ordermanagement/application/OrderServiceImpl.java:214-218 | fails exactly for an unknown id, with the table unchanged; otherwise exactly that order is gone, whatever its status |
| OrderStore.AssignIdsSavesAll | src/main/java/org/pedrcruz/backendarch/core/ordermanagement/domain/repositories/OrderRepository.java:16 | after save no line lacks an id |
| OrderStore.AssignIdsOnlyIds | src/main/java/org/pedrcruz/backendarch/core/ordermanagement/domain/repositories/OrderRepository.java:16 | save changes ids only, and a line that had an id keeps it |
| OrderStore.AssignIdsFresh | src/main/java/org/pedrcruz/backendarch/core/ordermanagement/domain/repositories/OrderRepository.java:16 | generated line ids lie in the generator's new range, so ids stay below the generator |
| OrderStore.SumTotalsIgnoresIds | src/main/java/org/pedrcruz/backendarch/core/ordermanagement/domain/model/Order.java:258-262 | the recalculated total does not depend on line ids |
| OrderStore.WellFormedIgnoresIds | src/main/java/org/pedrcruz/backendarch/core/ordermanagement/domain/model/Order.java:31-63 | the order invariant does not depend on line ids |
| OrderStore.SaveKeepsTableValid | src/main/java/org/pedrcruz/backendarch/core/ordermanagement/domain/repositories/OrderRepository.java:16 | saving a well-formed order under a generated key keeps every stored order well formed and saved with generated ids |
| OrderStore.ApplyKeepsIdsBelow | src/main/java/org/pedrcruz/backendarch/core/ordermanagement/domain/model/Order.java:88-211 | the mutators never invent line ids |
| OrderStore.CommandKeepsTableValid | src/main/java/org/pedrcruz/backendarch/core/ordermanagement/application/OrderServiceImpl.java:62-116 | every order command keeps the table invariant |
| OrderStore.CreateOrderKeepsTableValid | src/main/java/org/pedrcruz/backendarch/core/ordermanagement/application/OrderServiceImpl.java:35-38 | createOrder keeps the table invariant, and the new key was never used |
| OrderStore.DeleteOrderKeepsTableValid | src/main/java/org/pedrcruz/backendarch/core/ordermanagement/application/OrderServiceImpl.java:214-218 | deleteOrder keeps the table invariant |
| OrderQueries.FindActiveOrders | src/main/java/org/pedrcruz/backendarch/core/ordermanagement/infrastructure/repositories/impl/SpringDataOrderRepository.java:25-26 | the IN-list query finds exactly the stored orders whose status is active |
| OrderQueries.CountActiveOrders | src/main/java/org/pedrcruz/backendarch/core/ordermanagement/infrastructure/repositories/impl/SpringDataOrderRepository.java:71-72 | the count query equals the size of the active-order query |
| OrderQueries.LiteralQueryIsStatusQuery | src/main/java/org/pedrcruz/backendarch/core/ordermanagement/infrastructure/repositories/impl/SpringDataOrderRepository.java:28-44 | comparing the status column with a constant's name selects exactly that status |
| OrderQueries.FindPendingOrders | src/main/java/org/pedrcruz/backendarch/core/ordermanagement/infrastructure/repositories/impl/SpringDataOrderRepository.java:28-29 | the PENDING literal query equals the derived findByStatus(PENDING) |
| OrderQueries.FindConfirmedOrders | src/main/java/org/pedrcruz/backendarch/core/ordermanagement/infrastructure/repositories/impl/SpringDataOrderRepository.java:31-32 | the CONFIRMED literal query equals findByStatus(CONFIRMED) |
| OrderQueries.FindPreparingOrders | src/main/java/org/pedrcruz/backendarch/core/ordermanagement/infrastructure/repositories/impl/SpringDataOrderRepository.java:34-35 | the PREPARING literal query equals findByStatus(PREPARING) |
| OrderQueries.FindReadyOrders | src/main/java/org/pedrcruz/backendarch/core/ordermanagement/infrastructure/repositories/impl/SpringDataOrderRepository.java:37-38 | the READY literal query equals findByStatus(READY) |
| OrderQueries.FindDeliveredOrders | src/main/java/org/pedrcruz/backendarch/core/ordermanagement/infrastructure/repositories/impl/SpringDataOrderRepository.java:40-41 | the DELIVERED literal query equals findByStatus(DELIVERED) |
| OrderQueries.FindCancelledOrders | src/main/java/org/pedrcruz/backendarch/core/ordermanagement/infrastructure/repositories/impl/SpringDataOrderRepository.java:43-44 | the CANCELLED literal query equals findByStatus(CANCELLED) |
| OrderQueries.MinId | src/main/java/org/pedrcruz/backendarch/core/ordermanagement/application/OrderServiceImpl.java:266-278 | the smallest member of a non-empty id set |
| OrderQueries.HasMinimum | src/main/java/org/pedrcruz/backendarch/core/ordermanagement/application/OrderServiceImpl.java:266-278 | a non-empty id set has a least member |
| OrderQueries.RevenueByStatus | src/main/java/org/pedrcruz/backendarch/core/ordermanagement/application/OrderServiceImpl.java:272-278 | the revenue of a status with no orders is zero |
| OrderQueries.TotalRevenue | src/main/java/org/pedrcruz/backendarch/core/ordermanagement/application/OrderServiceImpl.java:264-270 | total revenue is the revenue of DELIVERED, and zero with no delivered order |
| OrderQueries.HasCustomerActiveOrder | src/main/java/org/pedrcruz/backendarch/core/ordermanagement/application/OrderServiceImpl.java:233-238 | true exactly when some stored order of the customer is active |
| OrderQueries.StatusQueriesPartition | src/main/java/org/pedrcruz/backendarch/core/ordermanagement/infrastructure/repositories/impl/SpringDataOrderRepository.java:25-72 | active, delivered and cancelled orders make up the table, and their counts add up to its size |
| OrderQueries.ActiveIsFourFinders | src/main/java/org/pedrcruz/backendarch/core/ordermanagement/infrastructure/repositories/impl/SpringDataOrderRepository.java:25-38 | the active-order query is the union of the four in-progress finders |
| OrderQueries.DisjointUnionSize | src/main/java/org/pedrcruz/backendarch/core/ordermanagement/infrastructure/repositories/impl/SpringDataOrderRepository.java:71-72 | disjoint query results add up in size |
| OrderQueries.EachOrderInOneStatusQuery | src/main/java/org/pedrcruz/backendarch/core/ordermanagement/infrastructure/repositories/impl/SpringDataOrderRepository.java:28-44 | each stored order is found by the derived and the literal finder of its status and by no other |
| OrderQueries.ItemCountQueries | src/main/java/org/pedrcruz/backendarch/core/ordermanagement/infrastructure/repositories/impl/SpringDataOrderRepository.java:52-59 | SIZE = n is the meet of >= n and <= n, >= 0 finds every order, and a negative maximum finds none |
| OrderQueries.ProgressedOrdersHaveItems | src/main/java/org/pedrcruz/backendarch/core/ordermanagement/infrastructure/repositories/impl/SpringDataOrderRepository.java:55-56 | a confirmed or preparing order in a valid table is found by findOrdersWithMinimumItems(1) |
| OrderQueries.SumAmountsRemove | src/main/java/org/pedrcruz/backendarch/core/ordermanagement/application/OrderServiceImpl.java:266-278 | taking one order out of the revenue sum subtracts its total, whatever order the reduce visits them in |
| OrderQueries.SumAmountsFrame | src/main/java/org/pedrcruz/backendarch/core/ordermanagement/application/OrderServiceImpl.java:266-278 | the revenue sum depends only on the totals of the orders it adds up |
| OrderQueries.SumAmountsNonNegative | src/main/java/org/pedrcruz/backendarch/core/ordermanagement/application/OrderServiceImpl.java:266-278 | the summed totals of well-formed orders are never negative |
| OrderQueries.RevenueNonNegative | src/main/java/org/pedrcruz/backendarch/core/ordermanagement/application/OrderServiceImpl.java:272-278 | revenue over a valid table is never negative |
| OrderQueries.DeliverAddsToRevenue | src/main/java/org/pedrcruz/backendarch/core/ordermanagement/application/OrderServiceImpl.java:97-102 | a successful deliverOrder adds exactly that order's total to the total revenue |
| OrderQueries.CommandOnOtherStatusKeepsRevenue | src/main/java/org/pedrcruz/backendarch/core/ordermanagement/application/OrderServiceImpl.java:62-116 | a command that neither starts nor ends with the order in a status leaves that status's revenue unchanged |
| OrderQueries.CreatedOrderIsActive | src/main/java/org/pedrcruz/backendarch/core/ordermanagement/application/OrderServiceImpl.java:35-38 | after createOrder the customer has an active order |
| OrderService.OrderService.constructor | src/main/java/org/pedrcruz/backendarch/core/ordermanagement/application/OrderServiceImpl.java:25-32 | a new service has an empty repository with both generators at 1 |
| OrderService.OrderService.Load | src/main/java/org/pedrcruz/backendarch/core/ordermanagement/domain/repositories/OrderRepository.java:20-24 | NotFound exactly for an unknown id; otherwise a fresh, valid order whose view is the stored row |
| OrderService.OrderService.Store | src/main/java/org/pedrcruz/backendarch/core/ordermanagement/domain/repositories/OrderRepository.java:16 | the table becomes exactly what OrderStore.Save prescribes |
| OrderService.OrderService.Mutate | src/main/java/org/pedrcruz/backendarch/core/ordermanagement/domain/model/Order.java:88-211 | the reply and new order are exactly those OrderRules.Apply prescribes |
| OrderService.OrderService.Execute | src/main/java/org/pedrcruz/backendarch/core/ordermanagement/application/OrderServiceImpl.java:62-116 | the reply and the new table are exactly those OrderStore.Command prescribes, and the table stays valid |
| OrderService.OrderService.MutateAndStore | src/main/java/org/pedrcruz/backendarch/core/ordermanagement/application/OrderServiceImpl.java:62-116 | after the load, the reply and the new table are those OrderStore.Command prescribes |
| OrderService.OrderService.CreateOrder | src/main/java/org/pedrcruz/backendarch/core/ordermanagement/application/OrderServiceImpl.java:35-38 | reply and new table as OrderStore.CreateOrder prescribes |
| OrderService.OrderService.CreateOrderForCustomer | src/main/java/org/pedrcruz/backendarch/core/ordermanagement/application/OrderServiceImpl.java:40-44 | an unknown or disabled customer is NotFound with the table unchanged; otherwise as createOrder for that customer |
| OrderService.OrderService.AddItemToOrder | src/main/java/org/pedrcruz/backendarch/core/ordermanagement/application/OrderServiceImpl.java:46-51 | reply and new table as the addItem command prescribes |
| OrderService.OrderService.AddItemToOrderById | src/main/java/org/pedrcruz/backendarch/core/ordermanagement/application/OrderServiceImpl.java:53-60 | reply and new table as OrderStore.AddItemById prescribes |
| OrderService.OrderService.RemoveItemFromOrder | src/main/java/org/pedrcruz/backendarch/core/ordermanagement/application/OrderServiceImpl.java:62-67 | reply and new table as the removeItem command prescribes |
| OrderService.OrderService.UpdateItemQuantity | src/main/java/org/pedrcruz/backendarch/core/ordermanagement/application/OrderServiceImpl.java:69-74 | reply and new table as the updateItemQuantity command prescribes |
| OrderService.OrderService.ConfirmOrder | src/main/java/org/pedrcruz/backendarch/core/ordermanagement/application/OrderServiceImpl.java:76-81 | reply and new table as the confirm command prescribes |
| OrderService.OrderService.StartPreparingOrder | src/main/java/org/pedrcruz/backendarch/core/ordermanagement/application/OrderServiceImpl.java:83-88 | reply and new table as the startPreparing command prescribes |
| OrderService.OrderService.MarkOrderAsReady | src/main/java/org/pedrcruz/backendarch/core/ordermanagement/application/OrderServiceImpl.java:90-95 | reply and new table as the markAsReady command prescribes |
| OrderService.OrderService.DeliverOrder | src/main/java/org/pedrcruz/backendarch/core/ordermanagement/application/OrderServiceImpl.java:97-102 | reply and new table as the deliver command prescribes |
| OrderService.OrderService.CancelOrder | src/main/java/org/pedrcruz/backendarch/core/ordermanagement/application/OrderServiceImpl.java:104-109 | reply and new table as the cancel command prescribes |
| OrderService.OrderService.UpdateOrderNotes | src/main/java/org/pedrcruz/backendarch/core/ordermanagement/application/OrderServiceImpl.java:111-116 | reply and new table as the updateNotes command prescribes |
| OrderService.OrderService.DeleteOrder | src/main/java/org/pedrcruz/backendarch/core/ordermanagement/application/OrderServiceImpl.java:214-218 | reply and new table as OrderStore.DeleteOrder prescribes |
| OrderService.OrderService.ExistsById | src/main/java/org/pedrcruz/backendarch/core/ordermanagement/application/OrderServiceImpl.java:220-224 | true exactly when getById would find the order |
| OrderService.OrderService.GetTotalRevenue | src/main/java/org/pedrcruz/backendarch/core/ordermanagement/application/OrderServiceImpl.java:264-270 | the revenue of DELIVERED |
| OrderService.OrderService.GetRevenueByStatus | src/main/java/org/pedrcruz/backendarch/core/ordermanagement/application/OrderServiceImpl.java:272-278 | zero when no order has the status |
| OrderService.OrderService.RevenueIsNonNegative | src/main/java/org/pedrcruz/backendarch/core/ordermanagement/application/OrderServiceImpl.java:264-278 | revenue read from a valid repository is never negative |
| OrderService.OrderService.HasCustomerActiveOrder | src/main/java/org/pedrcruz/backendarch/core/ordermanagement/application/OrderServiceImpl.java:233-238 | true exactly when some stored order of the customer is active |
| OrderService.OrderService.GetActiveOrderCount | src/main/java/org/pedrcruz/backendarch/core/ordermanagement/application/OrderServiceImpl.java:258-262 | the size of the active-order query |
| InventoryRules.StockPredicatesAgree | src/main/java/org/pedrcruz/backendarch/core/inventorymanagement/domain/model/Inventory.java:222-245 | with min at most max a record is never both under- and over-stocked, an empty record is at its reorder point, and below a positive minimum |
| InventoryRules.InventoryCheck | src/main/java/org/pedrcruz/backendarch/core/inventorymanagement/domain/model/Inventory.java:75-97 | the constructor's checks pass exactly for a product and a record with no negative counter and min at most max; a null product is refused first |
| InventoryRules.SetActive | src/main/java/org/pedrcruz/backendarch/core/inventorymanagement/domain/model/Inventory.java:113-131 | activate and deactivate set the flag and change nothing else |
| InventoryRules.UpdateQuantity | src/main/java/org/pedrcruz/backendarch/core/inventorymanagement/domain/model/Inventory.java:136-142 | succeeds exactly for a non-negative quantity, replacing the current quantity; otherwise refused with its message and nothing changed |
| InventoryRules.AddQuantity | src/main/java/org/pedrcruz/backendarch/core/inventorymanagement/domain/model/Inventory.java:147-153 | succeeds exactly for a non-negative quantity, adding it (as the mathematical sum); otherwise refused with its message |
| InventoryRules.AddQuantityAsWritten | src/main/java/org/pedrcruz/backendarch/core/inventorymanagement/domain/model/Inventory.java:147-153 | addQuantity with Java int addition: success for a non-negative quantity, the counter wraps modulo 2^32, and it agrees with AddQuantity whenever the sum fits |
| InventoryRules.AddQuantityAsWrittenOverflows | src/main/java/org/pedrcruz/backendarch/core/inventorymanagement/domain/model/Inventory.java:147-153 | adding 1 to a valid record holding the largest int is accepted and leaves the smallest int, so the record is no longer valid |
| InventoryRules.RemoveQuantity | src/main/java/org/pedrcruz/backendarch/core/inventorymanagement/domain/model/Inventory.java:158-167 | succeeds exactly for 0 to the current quantity, subtracting it; a negative quantity and too large a quantity are refused with their messages, in that order |
| InventoryRules.UpdateMinimumStockLevel | src/main/java/org/pedrcruz/backendarch/core/inventorymanagement/domain/model/Inventory.java:172-181 | succeeds exactly for 0 to the maximum; the two refusals carry their messages in source order |
| InventoryRules.UpdateMaximumStockLevel | src/main/java/org/pedrcruz/backendarch/core/inventorymanagement/domain/model/Inventory.java:186-195 | succeeds exactly for a non-negative level not below the minimum; the two refusals carry their messages in source order |
| InventoryRules.UpdateReorderPoint | src/main/java/org/pedrcruz/backendarch/core/inventorymanagement/domain/model/Inventory.java:200-206 | succeeds exactly for a non-negative point, with no check against min or max |
| InventoryRules.UpdateReorderQuantity | src/main/java/org/pedrcruz/backendarch/core/inventorymanagement/domain/model/Inventory.java:211-217 | succeeds exactly for a non-negative quantity |
| InventoryRules.ApplyStockPreservesValid | src/main/java/org/pedrcruz/backendarch/core/inventorymanagement/domain/model/Inventory.java:113-217 | every mutator keeps no counter negative and min at most max; a refused one changes nothing; none changes the product |
| InventoryRules.OnlyActivationMovesTheFlag | src/main/java/org/pedrcruz/backendarch/core/inventorymanagement/domain/model/Inventory.java:136-217 | the counter mutators never touch the activity flag |
| InventoryRules.DeactivateActivateRoundTrip | src/main/java/org/pedrcruz/backendarch/core/inventorymanagement/domain/model/Inventory.java:120-131 | deactivating and then activating an active record gives it back unchanged |
| InventoryRules.RunStockPreservesValid | src/main/java/org/pedrcruz/backendarch/core/inventorymanagement/application/InventoryServiceImpl.java:36-48 | a sequence of mutators stopping at the first refusal keeps the record valid |
| InventoryRules.UpdateAllCharacterized | src/main/java/org/pedrcruz/backendarch/core/inventorymanagement/application/InventoryServiceImpl.java:36-48 | updateInventory's five setters succeed exactly when the new minimum fits under the old maximum and the new values are otherwise valid, and then replace all five counters |
| InventoryRules.UpdateAllOrderMatters | src/main/java/org/pedrcruz/backendarch/core/inventorymanagement/application/InventoryServiceImpl.java:41-43 | raising both levels past the old maximum in one updateInventory is refused, although the target record is valid |
| Inventories.Inventory.constructor | src/main/java/org/pedrcruz/backendarch/core/inventorymanagement/domain/model/Inventory.java:75-108 | a new inventory is unsaved, active and holds the given product and counters |
| Inventories.Inventory.Loaded | src/main/java/org/pedrcruz/backendarch/core/inventorymanagement/domain/model/Inventory.java:68-70 | the persistence constructor restores the stored key and record |
| Inventories.Inventory.IsActive | src/main/java/org/pedrcruz/backendarch/core/inventorymanagement/domain/model/Inventory.java:113-115 | the activity flag of the record |
| Inventories.Inventory.Deactivate | src/main/java/org/pedrcruz/backendarch/core/inventorymanagement/domain/model/Inventory.java:120-123 | only the flag changes, to inactive |
| Inventories.Inventory.Activate | src/main/java/org/pedrcruz/backendarch/core/inventorymanagement/domain/model/Inventory.java:128-131 | only the flag changes, to active |
| Inventories.Inventory.UpdateQuantity | src/main/java/org/pedrcruz/backendarch/core/inventorymanagement/domain/model/Inventory.java:136-142 | reply and new record as InventoryRules.UpdateQuantity prescribes |
| Inventories.Inventory.AddQuantity | src/main/java/org/pedrcruz/backendarch/core/inventorymanagement/domain/model/Inventory.java:147-153 | reply and new record as InventoryRules.AddQuantity prescribes |
| Inventories.Inventory.RemoveQuantity | src/main/java/org/pedrcruz/backendarch/core/inventorymanagement/domain/model/Inventory.java:158-167 | reply and new record as InventoryRules.RemoveQuantity prescribes |
| Inventories.Inventory.UpdateMinimumStockLevel | src/main/java/org/pedrcruz/backendarch/core/inventorymanagement/domain/model/Inventory.java:172-181 | reply and new record as InventoryRules.UpdateMinimumStockLevel prescribes |
| Inventories.Inventory.UpdateMaximumStockLevel | src/main/java/org/pedrcruz/backendarch/core/inventorymanagement/domain/model/Inventory.java:186-195 | reply and new record as InventoryRules.UpdateMaximumStockLevel prescribes |
| Inventories.Inventory.UpdateReorderPoint | src/main/java/org/pedrcruz/backendarch/core/inventorymanagement/domain/model/Inventory.java:200-206 | reply and new record as InventoryRules.UpdateReorderPoint prescribes |
| Inventories.Inventory.UpdateReorderQuantity | src/main/java/org/pedrcruz/backendarch/core/inventorymanagement/domain/model/Inventory.java:211-217 | reply and new record as InventoryRules.UpdateReorderQuantity prescribes |
| Inventories.Inventory.IsBelowMinimumStock | src/main/java/org/pedrcruz/backendarch/core/inventorymanagement/domain/model/Inventory.java:222-224 | current below minimum; on a valid record never together with above-maximum |
| Inventories.Inventory.IsAtReorderPoint | src/main/java/org/pedrcruz/backendarch/core/inventorymanagement/domain/model/Inventory.java:229-231 | current at most the reorder point; always true for an empty valid record |
| Inventories.Inventory.IsAboveMaximumStock | src/main/java/org/pedrcruz/backendarch/core/inventorymanagement/domain/model/Inventory.java:236-238 | current above maximum |
| Inventories.Inventory.IsOutOfStock | src/main/java/org/pedrcruz/backendarch/core/inventorymanagement/domain/model/Inventory.java:243-245 | current quantity zero |
| Inventories.NewInventory | src/main/java/org/pedrcruz/backendarch/core/inventorymanagement/domain/model/Inventory.java:75-108 | fails exactly when the constructor's checks fail, with their error; otherwise a fresh valid, unsaved, active record with the given counters |
| InventoryStore.GetById | src/main/java/org/pedrcruz/backendarch/core/inventorymanagement/domain/repositories/InventoryRepository.java:19-25 | success exactly for a stored active record, which is returned; otherwise NotFound naming Inventory and the id |
| InventoryStore.FindById | src/main/java/org/pedrcruz/backendarch/core/inventorymanagement/application/InventoryServiceImpl.java:101-102 | success exactly for a stored record, active or not; otherwise NotFound |
| InventoryStore.CreateInventory | src/main/java/org/pedrcruz/backendarch/core/inventorymanagement/application/InventoryServiceImpl.java:24-34 | a product that already has a record, active or not, is refused with the already-exists message; any failure changes nothing; success exactly when no record exists and the checks pass, saving the new record under the next id |
| InventoryStore.Command | src/main/java/org/pedrcruz/backendarch/core/inventorymanagement/application/InventoryServiceImpl.java:50-112 | a missing or inactive record is NotFound with the table unchanged; a refused mutator saves nothing; keys, generator and every other record are kept |
| InventoryStore.UpdateInventory | src/main/java/org/pedrcruz/backendarch/core/inventorymanagement/application/InventoryServiceImpl.java:36-48 | NotFound before anything; a refused setter saves nothing; keys, generator and every other record are kept; on a valid record it succeeds exactly when the new quantity, reorder point and reorder quantity are non-negative, the new minimum lies between 0 and the old maximum, and the new maximum is at least the new minimum, and it then stores exactly the five new values |
| InventoryStore.ActivateInventory | src/main/java/org/pedrcruz/backendarch/core/inventorymanagement/application/InventoryServiceImpl.java:99-105 | a missing record is NotFound; any stored record, inactive included, becomes active |
| InventoryStore.DeleteInventory | src/main/java/org/pedrcruz/backendarch/core/inventorymanagement/application/InventoryServiceImpl.java:180-184 | succeeds exactly for a stored active record, removing exactly it; otherwise NotFound with the table unchanged |
| InventoryStore.ReplaceKeepsTableValid | src/main/java/org/pedrcruz/backendarch/core/inventorymanagement/application/InventoryServiceImpl.java:50-112 | replacing a record by a valid one for the same product keeps the table valid |
| InventoryStore.CreateKeepsTableValid | src/main/java/org/pedrcruz/backendarch/core/inventorymanagement/application/InventoryServiceImpl.java:24-34 | createInventory keeps generated keys, valid counters and one record per product |
| InventoryStore.CommandKeepsTableValid | src/main/java/org/pedrcruz/backendarch/core/inventorymanagement/application/InventoryServiceImpl.java:50-112 | every single-setter command keeps the table invariant |
| InventoryStore.RunStockKeepsProduct | src/main/java/org/pedrcruz/backendarch/core/inventorymanagement/application/InventoryServiceImpl.java:36-48 | a run of setters never changes the product |
| InventoryStore.UpdateInventoryKeepsTableValid | src/main/java/org/pedrcruz/backendarch/core/inventorymanagement/application/InventoryServiceImpl.java:36-48 | updateInventory keeps the table invariant |
| InventoryStore.ActivateKeepsTableValid | src/main/java/org/pedrcruz/backendarch/core/inventorymanagement/application/InventoryServiceImpl.java:99-105 | activateInventory keeps the table invariant |
| InventoryStore.DeleteKeepsTableValid | src/main/java/org/pedrcruz/backendarch/core/inventorymanagement/application/InventoryServiceImpl.java:180-184 | deleteInventory keeps the table invariant |
| InventoryStore.SecondInventoryRejected | src/main/java/org/pedrcruz/backendarch/core/inventorymanagement/application/InventoryServiceImpl.java:27-29 | once an inventory is created for a product, a second one for it is refused and changes nothing |
| InventoryStore.DeactivatedOnlyReactivates | src/main/java/org/pedrcruz/backendarch/core/inventorymanagement/application/InventoryServiceImpl.java:99-112 | after deactivation every command, updateInventory and delete fail NotFound and change nothing, while activateInventory restores the original table |
| InventoryStore.RemoveMoreThanAvailableFails | src/main/java/org/pedrcruz/backendarch/core/inventorymanagement/domain/model/Inventory.java:158-167 | removing more than is available is refused with its message and leaves the table alone |
| InventoryQueries.FindBelowMinimumStock | src/main/java/org/pedrcruz/backendarch/core/inventorymanagement/infrastructure/repositories/impl/SpringDataInventoryRepository.java:35-36 | exactly the active records below their minimum |
| InventoryQueries.FindAtReorderPoint | src/main/java/org/pedrcruz/backendarch/core/inventorymanagement/infrastructure/repositories/impl/SpringDataInventoryRepository.java:38-39 | exactly the active records at or under their reorder point |
| InventoryQueries.FindOutOfStock | src/main/java/org/pedrcruz/backendarch/core/inventorymanagement/infrastructure/repositories/impl/SpringDataInventoryRepository.java:41-42 | exactly the active records with quantity zero |
| InventoryQueries.FindAboveMaximumStock | src/main/java/org/pedrcruz/backendarch/core/inventorymanagement/infrastructure/repositories/impl/SpringDataInventoryRepository.java:44-45 | exactly the active records above their maximum |
| InventoryQueries.StockReportsAgree | src/main/java/org/pedrcruz/backendarch/core/inventorymanagement/infrastructure/repositories/impl/SpringDataInventoryRepository.java:35-45 | in a valid table every out-of-stock record is at its reorder point, and none is both below minimum and above maximum |
| InventoryQueries.ReportsListActiveRecords | src/main/java/org/pedrcruz/backendarch/core/inventorymanagement/infrastructure/repositories/impl/SpringDataInventoryRepository.java:15 | the four reports list only active records, and the active and inactive lists split the table |
| InventoryService.InventoryService.constructor | src/main/java/org/pedrcruz/backendarch/core/inventorymanagement/application/InventoryServiceImpl.java:20-22 | a new service has an empty repository with the generator at 1 |
| InventoryService.InventoryService.Load | src/main/java/org/pedrcruz/backendarch/core/inventorymanagement/domain/repositories/InventoryRepository.java:19-25 | with activeOnly, as getById; otherwise as findById; a success is a fresh entity holding the stored record under its key |
| InventoryService.InventoryService.Store | src/main/java/org/pedrcruz/backendarch/core/inventorymanagement/domain/repositories/InventoryRepository.java:15 | exactly that record is written |
| InventoryService.InventoryService.Mutate | src/main/java/org/pedrcruz/backendarch/core/inventorymanagement/domain/model/Inventory.java:113-217 | reply and new record as InventoryRules.ApplyStock prescribes |
| InventoryService.InventoryService.Execute | src/main/java/org/pedrcruz/backendarch/core/inventorymanagement/application/InventoryServiceImpl.java:50-112 | reply and new table as InventoryStore.Command prescribes; the table stays valid |
| InventoryService.InventoryService.CreateInventory | src/main/java/org/pedrcruz/backendarch/core/inventorymanagement/application/InventoryServiceImpl.java:24-34 | reply and new table as InventoryStore.CreateInventory prescribes |
| InventoryService.InventoryService.UpdateInventory | src/main/java/org/pedrcruz/backendarch/core/inventorymanagement/application/InventoryServiceImpl.java:36-48 | reply and new table as InventoryStore.UpdateInventory prescribes |
| InventoryService.InventoryService.RunSetters | src/main/java/org/pedrcruz/backendarch/core/inventorymanagement/application/InventoryServiceImpl.java:41-45 | the setters run in order on one entity and stop at the first refusal, as InventoryRules.RunStock prescribes |
| InventoryService.InventoryService.UpdateQuantity | src/main/java/org/pedrcruz/backendarch/core/inventorymanagement/application/InventoryServiceImpl.java:50-55 | reply and new table as the updateQuantity command prescribes |
| InventoryService.InventoryService.AddQuantity | src/main/java/org/pedrcruz/backendarch/core/inventorymanagement/application/InventoryServiceImpl.java:57-62 | reply and new table as the addQuantity command prescribes |
| InventoryService.InventoryService.RemoveQuantity | src/main/java/org/pedrcruz/backendarch/core/inventorymanagement/application/InventoryServiceImpl.java:64-69 | reply and new table as the removeQuantity command prescribes |
| InventoryService.InventoryService.UpdateMinimumStockLevel | src/main/java/org/pedrcruz/backendarch/core/inventorymanagement/application/InventoryServiceImpl.java:71-76 | reply and new table as the minimum-level command prescribes |
| InventoryService.InventoryService.UpdateMaximumStockLevel | src/main/java/org/pedrcruz/backendarch/core/inventorymanagement/application/InventoryServiceImpl.java:78-83 | reply and new table as the maximum-level command prescribes |
| InventoryService.InventoryService.UpdateReorderPoint | src/main/java/org/pedrcruz/backendarch/core/inventorymanagement/application/InventoryServiceImpl.java:85-90 | reply and new table as the reorder-point command prescribes |
| InventoryService.InventoryService.UpdateReorderQuantity | src/main/java/org/pedrcruz/backendarch/core/inventorymanagement/application/InventoryServiceImpl.java:92-97 | reply and new table as the reorder-quantity command prescribes |
| InventoryService.InventoryService.ActivateInventory | src/main/java/org/pedrcruz/backendarch/core/inventorymanagement/application/InventoryServiceImpl.java:99-105 | reply and new table as InventoryStore.ActivateInventory prescribes |
| InventoryService.InventoryService.DeactivateInventory | src/main/java/org/pedrcruz/backendarch/core/inventorymanagement/application/InventoryServiceImpl.java:107-112 | reply and new table as the deactivate command prescribes |
| InventoryService.InventoryService.DeleteInventory | src/main/java/org/pedrcruz/backendarch/core/inventorymanagement/application/InventoryServiceImpl.java:180-184 | reply and new table as InventoryStore.DeleteInventory prescribes |
| InventoryService.InventoryService.ExistsByProductId | src/main/java/org/pedrcruz/backendarch/core/inventorymanagement/application/InventoryServiceImpl.java:198-202 | true exactly when some record, active or not, belongs to the product |
| InventoryService.InventoryService.GetActiveInventoryCount | src/main/java/org/pedrcruz/backendarch/core/inventorymanagement/application/InventoryServiceImpl.java:210-214 | the number of records that are not inactive, at most the table size |
| ProductRules.ProductCheck | src/main/java/org/pedrcruz/backendarch/core/productmanagement/domain/model/Product.java:80-99 | the constructor's checks pass exactly for non-null name, description, price and category with non-negative price and stock; otherwise the first failing check in source order gives its message: name null, description null, price null, category null, price negative, stock negative |
| ProductRules.NewProduct | src/main/java/org/pedrcruz/backendarch/core/productmanagement/domain/model/Product.java:80-110 | success exactly when the checks pass, with their error otherwise; the new record holds exactly the given name, description, price, category, image URL and stock, is active, and is valid |
| ProductRules.SetActive | src/main/java/org/pedrcruz/backendarch/core/productmanagement/domain/model/Product.java:122-133 | activate and deactivate set the flag and change nothing else |
| ProductRules.ChangeName | src/main/java/org/pedrcruz/backendarch/core/productmanagement/domain/model/Product.java:138-144 | succeeds exactly for a non-null name, replacing only it; otherwise refused with its message |
| ProductRules.ChangeDescription | src/main/java/org/pedrcruz/backendarch/core/productmanagement/domain/model/Product.java:149-155 | succeeds exactly for a non-null description, replacing only it; otherwise refused with its message |
| ProductRules.ChangePrice | src/main/java/org/pedrcruz/backendarch/core/productmanagement/domain/model/Product.java:160-169 | succeeds exactly for a non-null non-negative price, replacing only it; the null and negative refusals carry their messages in that order |
| ProductRules.ChangeCategory | src/main/java/org/pedrcruz/backendarch/core/productmanagement/domain/model/Product.java:174-180 | succeeds exactly for a non-null category, replacing only it; otherwise refused with its message |
| ProductRules.ChangeImageUrl | src/main/java/org/pedrcruz/backendarch/core/productmanagement/domain/model/Product.java:185-188 | any value, null included, replaces only the image URL |
| ProductRules.UpdateStockQuantity | src/main/java/org/pedrcruz/backendarch/core/productmanagement/domain/model/Product.java:193-199 | succeeds exactly for a non-negative quantity, replacing only the stock; otherwise refused with its message |
| ProductRules.ReduceStock | src/main/java/org/pedrcruz/backendarch/core/productmanagement/domain/model/Product.java:204-214 | a non-positive quantity throws and changes nothing; more than the stock replies false and changes nothing; otherwise replies true and lowers the stock by the quantity |
| ProductRules.AddStock | src/main/java/org/pedrcruz/backendarch/core/productmanagement/domain/model/Product.java:219-225 | succeeds exactly for a positive quantity, adding it (as the mathematical sum); otherwise refused with its message |
| ProductRules.AddStockAsWritten | src/main/java/org/pedrcruz/backendarch/core/productmanagement/domain/model/Product.java:219-225 | addStock with Java int addition: success for a positive quantity, the stock wraps modulo 2^32, and it agrees with AddStock whenever the sum fits |
| ProductRules.MutatorsPreserveValid | src/main/java/org/pedrcruz/backendarch/core/productmanagement/domain/model/Product.java:122-225 | every mutator, reduceStock included, keeps price and stock non-negative, and a refused one changes nothing |
| ProductRules.OnlyActivationMovesTheFlag | src/main/java/org/pedrcruz/backendarch/core/productmanagement/domain/model/Product.java:122-225 | only activate and deactivate touch the flag, and they touch nothing else |
| ProductRules.AddThenReduceRoundTrip | src/main/java/org/pedrcruz/backendarch/core/productmanagement/domain/model/Product.java:204-225 | adding stock and then reducing by the same amount replies true and gives the record back |
| ProductRules.ReduceThenAddRoundTrip | src/main/java/org/pedrcruz/backendarch/core/productmanagement/domain/model/Product.java:204-225 | a reduction that replied true is undone by adding the same amount |
| ProductRules.ZeroAddDiffersFromInventory | src/main/java/org/pedrcruz/backendarch/core/productmanagement/domain/model/Product.java:219-222 | adding zero is refused by the product and accepted by the inventory |
| ProductRules.AddStockAsWrittenOverflows | src/main/java/org/pedrcruz/backendarch/core/productmanagement/domain/model/Product.java:219-225 | adding 1 to a full stock counter is accepted and leaves the smallest int, so the record is no longer valid |
| Products.Product.constructor | src/main/java/org/pedrcruz/backendarch/core/productmanagement/domain/model/Product.java:100-110 | a new product is unsaved and holds exactly the checked record |
| Products.Product.IsActive | src/main/java/org/pedrcruz/backendarch/core/productmanagement/domain/model/Product.java:115-117 | the record's activity flag |
| Products.Product.Deactivate | src/main/java/org/pedrcruz/backendarch/core/productmanagement/domain/model/Product.java:122-125 | the record becomes what ProductRules.SetActive(false) prescribes, id unchanged |
| Products.Product.Activate | src/main/java/org/pedrcruz/backendarch/core/productmanagement/domain/model/Product.java:130-133 | the record becomes what ProductRules.SetActive(true) prescribes, id unchanged |
| Products.Product.ChangeName | src/main/java/org/pedrcruz/backendarch/core/productmanagement/domain/model/Product.java:138-144 | reply and new record as ProductRules.ChangeName prescribes |
| Products.Product.ChangeDescription | src/main/java/org/pedrcruz/backendarch/core/productmanagement/domain/model/Product.java:149-155 | reply and new record as ProductRules.ChangeDescription prescribes |
| Products.Product.ChangePrice | src/main/java/org/pedrcruz/backendarch/core/productmanagement/domain/model/Product.java:160-169 | reply and new record as ProductRules.ChangePrice prescribes |
| Products.Product.ChangeCategory | src/main/java/org/pedrcruz/backendarch/core/productmanagement/domain/model/Product.java:174-180 | reply and new record as ProductRules.ChangeCategory prescribes |
| Products.Product.ChangeImageUrl | src/main/java/org/pedrcruz/backendarch/core/productmanagement/domain/model/Product.java:185-188 | new record as ProductRules.ChangeImageUrl prescribes |
| Products.Product.UpdateStockQuantity | src/main/java/org/pedrcruz/backendarch/core/productmanagement/domain/model/Product.java:193-199 | reply and new record as ProductRules.UpdateStockQuantity prescribes |
| Products.Product.ReduceStock | src/main/java/org/pedrcruz/backendarch/core/productmanagement/domain/model/Product.java:204-214 | reply and new record as ProductRules.ReduceStock prescribes |
| Products.Product.AddStock | src/main/java/org/pedrcruz/backendarch/core/productmanagement/domain/model/Product.java:219-225 | reply and new record as ProductRules.AddStock prescribes |
| Products.NewProduct | src/main/java/org/pedrcruz/backendarch/core/productmanagement/domain/model/Product.java:80-110 | fails exactly when ProductRules.NewProduct does, with its error; otherwise a fresh valid unsaved product holding that record |
| CategoryRules.Subtree | src/main/java/org/pedrcruz/backendarch/core/categorymanagement/domain/model/Category.java:183-191 | the subtree of a known category holds it and only known categories |
| CategoryRules.JavaText | src/main/java/org/pedrcruz/backendarch/core/categorymanagement/domain/model/Category.java:160-165 | string concatenation renders a non-null string as itself |
| CategoryRules.WalkAdd | src/main/java/org/pedrcruz/backendarch/core/categorymanagement/domain/model/Category.java:142-155 | walking m steps up the parent chain and then n more is walking m + n steps |
| CategoryRules.WalkRank | src/main/java/org/pedrcruz/backendarch/core/categorymanagement/domain/model/Category.java:142-155 | each step up the chain lowers the rank by at least one |
| CategoryRules.AncestorRankLess | src/main/java/org/pedrcruz/backendarch/core/categorymanagement/domain/model/Category.java:142-155 | an ancestor has a smaller rank |
| CategoryRules.RankedIsAcyclic | src/main/java/org/pedrcruz/backendarch/core/categorymanagement/domain/model/Category.java:99-111 | a ranked parent relation has no cycle: no category is its own ancestor |
| CategoryRules.AncestorStep | src/main/java/org/pedrcruz/backendarch/core/categorymanagement/domain/model/Category.java:142-155 | the ancestors of a category are its parent and the parent's ancestors |
| CategoryRules.RootIffNoAncestor | src/main/java/org/pedrcruz/backendarch/core/categorymanagement/domain/model/Category.java:128-130 | a category has no ancestor exactly when it has no parent |
| CategoryRules.NoneStaysNone | src/main/java/org/pedrcruz/backendarch/core/categorymanagement/domain/model/Category.java:142-155 | once the parent chain has ended it stays ended |
| CategoryRules.ChainLengthFacts | src/main/java/org/pedrcruz/backendarch/core/categorymanagement/domain/model/Category.java:170-178 | the depth is unique, zero exactly for a root, and one more than the parent's otherwise |
| CategoryRules.LeafIsNoAncestor | src/main/java/org/pedrcruz/backendarch/core/categorymanagement/domain/model/Category.java:135-137 | a category with no subcategories is nobody's ancestor |
| CategoryRules.AttachCheck | src/main/java/org/pedrcruz/backendarch/core/categorymanagement/domain/model/Category.java:99-108 | addSubcategory's checks pass exactly for a non-null category other than this one and not above it; the three refusals carry their messages in source order |
| CategoryRules.AddSubcategoryAsWritten | src/main/java/org/pedrcruz/backendarch/core/categorymanagement/domain/model/Category.java:99-111 | addSubcategory as written: the reply is the checks'; a refusal changes nothing; a success sets the child's parent to this one |
| CategoryRules.Detach | src/main/java/org/pedrcruz/backendarch/core/categorymanagement/domain/model/Category.java:110-111 | the child leaves exactly the set of its current parent, every other set kept |
| CategoryRules.AddSubcategory | src/main/java/org/pedrcruz/backendarch/core/categorymanagement/domain/model/Category.java:99-111 | addSubcategory corrected: the reply is the checks'; a refusal changes nothing; a success sets the child's parent and puts it in this one's set |
| CategoryRules.RemoveSubcategory | src/main/java/org/pedrcruz/backendarch/core/categorymanagement/domain/model/Category.java:118-123 | a null category or one not in the set is a no-op; a member leaves the set and becomes a root |
| CategoryRules.AttachKeepsRanked | src/main/java/org/pedrcruz/backendarch/core/categorymanagement/domain/model/Category.java:99-111 | a passing addSubcategory keeps the parent relation ranked, hence acyclic |
| CategoryRules.AttachKeepsConsistent | src/main/java/org/pedrcruz/backendarch/core/categorymanagement/domain/model/Category.java:110-111 | detaching and relinking keeps the sets the inverse of the parent links |
| CategoryRules.AddSubcategoryKeepsConsistent | src/main/java/org/pedrcruz/backendarch/core/categorymanagement/domain/model/Category.java:99-111 | the corrected addSubcategory keeps the sets the inverse of the links, whatever its outcome |
| CategoryRules.Attach | src/main/java/org/pedrcruz/backendarch/core/categorymanagement/domain/model/Category.java:110-111 | the links a passing corrected addSubcategory leaves; the known categories stay the same |
| CategoryRules.AttachKeepsTreeValid | src/main/java/org/pedrcruz/backendarch/core/categorymanagement/domain/model/Category.java:99-111 | a passing addSubcategory keeps the tree invariant with the moved subtree re-ranked |
| CategoryRules.AttachedRanks | src/main/java/org/pedrcruz/backendarch/core/categorymanagement/domain/model/Category.java:99-111 | there are ranks under which the links after a passing addSubcategory are a valid tree |
| CategoryRules.InsertRootKeepsTreeValid | src/main/java/org/pedrcruz/backendarch/core/categorymanagement/domain/model/Category.java:68-90 | a new root category with no subcategories keeps the tree invariant |
| CategoryRules.AttachFreshLeaf | src/main/java/org/pedrcruz/backendarch/core/categorymanagement/domain/model/Category.java:91-93 | attaching a new root with no subcategories passes the checks and changes only its link and the parent's set |
| CategoryRules.RemoveKeepsInvariants | src/main/java/org/pedrcruz/backendarch/core/categorymanagement/domain/model/Category.java:118-123 | removeSubcategory keeps the links ranked and the sets consistent |
| CategoryRules.AttachThenRemoveRoundTrip | src/main/java/org/pedrcruz/backendarch/core/categorymanagement/domain/model/Category.java:99-123 | attaching a root and removing it again restores the links |
| CategoryRules.RemoveThenAttachRoundTrip | src/main/java/org/pedrcruz/backendarch/core/categorymanagement/domain/model/Category.java:99-123 | removing a subcategory and attaching it again restores the links |
| CategoryRules.WalkFrame | src/main/java/org/pedrcruz/backendarch/core/categorymanagement/domain/model/Category.java:118-123 | cutting a category off changes no chain that never reaches it |
| CategoryRules.SubtreeShrinks | src/main/java/org/pedrcruz/backendarch/core/categorymanagement/domain/model/Category.java:183-191 | in a consistent ranked tree the subtree of a subcategory is strictly smaller |
| CategoryRules.SubtreeUnfold | src/main/java/org/pedrcruz/backendarch/core/categorymanagement/domain/model/Category.java:183-191 | every category below another lies in the subtree of one of its subcategories |
| CategoryRules.SubtreeCovered | src/main/java/org/pedrcruz/backendarch/core/categorymanagement/domain/model/Category.java:183-191 | a set holding a category and the subtrees of its subcategories holds its whole subtree |
| CategoryRules.DeactivateReturnsInConsistentTree | src/main/java/org/pedrcruz/backendarch/core/categorymanagement/domain/model/Category.java:183-191 | with consistent sets the recursive deactivate on any category returns |
| CategoryRules.DeactivateReturnsMonotone | src/main/java/org/pedrcruz/backendarch/core/categorymanagement/domain/model/Category.java:183-191 | a deactivate that returns within some depth returns within any larger one |
| CategoryRules.FirstAttach | src/main/java/org/pedrcruz/backendarch/core/categorymanagement/domain/model/Category.java:99-111 | as written, 1.addSubcategory(2) on three roots hangs 2 below 1 |
| CategoryRules.SecondAttach | src/main/java/org/pedrcruz/backendarch/core/categorymanagement/domain/model/Category.java:99-111 | as written, 3.addSubcategory(2) moves 2 below 3 but leaves it in 1's set |
| CategoryRules.ThirdAttach | src/main/java/org/pedrcruz/backendarch/core/categorymanagement/domain/model/Category.java:99-111 | as written, 2.addSubcategory(1) is then accepted, leaving 1 in 2's set and 2 in 1's set |
| CategoryRules.StaleSubcategoryMakesCycle | src/main/java/org/pedrcruz/backendarch/core/categorymanagement/domain/model/Category.java:99-111 | the three calls as written all pass, the sets are no longer the inverse of the links, and deactivate on 1 never returns |
| CategoryRules.ThreeRootsConsistent | src/main/java/org/pedrcruz/backendarch/core/categorymanagement/domain/model/Category.java:68-73 | three new root categories have consistent sets |
| CategoryRules.CorrectedFirstAttach | src/main/java/org/pedrcruz/backendarch/core/categorymanagement/domain/model/Category.java:99-111 | corrected, 1.addSubcategory(2) gives the same links as written |
| CategoryRules.CorrectedSecondAttach | src/main/java/org/pedrcruz/backendarch/core/categorymanagement/domain/model/Category.java:99-111 | corrected, 3.addSubcategory(2) also takes 2 out of 1's set |
| CategoryRules.CorrectedThirdAttach | src/main/java/org/pedrcruz/backendarch/core/categorymanagement/domain/model/Category.java:99-111 | corrected, 2.addSubcategory(1) leaves 1 below 2 and 2 below 3 with matching sets |
| CategoryRules.CorrectedAttachKeepsSetsConsistent | src/main/java/org/pedrcruz/backendarch/core/categorymanagement/domain/model/Category.java:99-111 | the same three calls with the corrected addSubcategory all pass and leave sets consistent with the links |
| CategoryRules.CycleNeverReturns | src/main/java/org/pedrcruz/backendarch/core/categorymanagement/domain/model/Category.java:183-191 | two categories in each other's sets make deactivate recurse without end |
| Categories.CategoryTree.NewCategory | src/main/java/org/pedrcruz/backendarch/core/categorymanagement/domain/model/Category.java:68-94 | success exactly for a name and a description, refused with their messages in order and nothing changed; a new active category under the next key, registered with its parent, the tree kept valid |
| Categories.CategoryTree.AttachNewRoot | src/main/java/org/pedrcruz/backendarch/core/categorymanagement/domain/model/Category.java:91-93 | the constructor's addSubcategory: only the new category's link and the parent's set change |
| Categories.CategoryTree.InsertRoot | src/main/java/org/pedrcruz/backendarch/core/categorymanagement/domain/model/Category.java:68-90 | a new active root with no subcategories, name and description under the next key |
| Categories.CategoryTree.AddSubcategory | src/main/java/org/pedrcruz/backendarch/core/categorymanagement/domain/model/Category.java:99-111 | links and reply as the corrected CategoryRules.AddSubcategory prescribes, no other field changed, the tree kept valid |
| Categories.CategoryTree.Relink | src/main/java/org/pedrcruz/backendarch/core/categorymanagement/domain/model/Category.java:110-111 | the links become those CategoryRules.Attach prescribes |
| Categories.CategoryTree.RemoveSubcategory | src/main/java/org/pedrcruz/backendarch/core/categorymanagement/domain/model/Category.java:118-123 | links as CategoryRules.RemoveSubcategory prescribes, no other field changed |
| Categories.CategoryTree.IsDescendantOf | src/main/java/org/pedrcruz/backendarch/core/categorymanagement/domain/model/Category.java:142-155 | true exactly for a non-null category that is an ancestor |
| Categories.CategoryTree.GetDepthLevel | src/main/java/org/pedrcruz/backendarch/core/categorymanagement/domain/model/Category.java:170-178 | the length of the parent chain, zero exactly for a root |
| Categories.CategoryTree.PathExtendsAncestorPath | src/main/java/org/pedrcruz/backendarch/core/categorymanagement/domain/model/Category.java:160-165 | the hierarchical path of a category starts with each ancestor's path followed by the separator |
| Categories.CategoryTree.Deactivate | src/main/java/org/pedrcruz/backendarch/core/categorymanagement/domain/model/Category.java:183-191 | on return exactly the subtree is inactive, every other flag and every other field unchanged |
| Categories.CategoryTree.DeactivateSubcategories | src/main/java/org/pedrcruz/backendarch/core/categorymanagement/domain/model/Category.java:187-190 | the loop over the subcategories leaves exactly the subtree inactive |
| Categories.CategoryTree.Activate | src/main/java/org/pedrcruz/backendarch/core/categorymanagement/domain/model/Category.java:196-199 | only this category's flag becomes active |
| Categories.CategoryTree.ChangeName | src/main/java/org/pedrcruz/backendarch/core/categorymanagement/domain/model/Category.java:240-246 | succeeds exactly for a non-null name, replacing only it; otherwise refused with its message and nothing changed |
| Categories.CategoryTree.ChangeDescription | src/main/java/org/pedrcruz/backendarch/core/categorymanagement/domain/model/Category.java:248-254 | succeeds exactly for a non-null description, replacing only it; otherwise refused with its message and nothing changed |
| Categories.CategoryTree.IsRootCategory | src/main/java/org/pedrcruz/backendarch/core/categorymanagement/domain/model/Category.java:128-130 | true exactly when the category has no ancestor |
| Categories.CategoryTree.HasSubcategories | src/main/java/org/pedrcruz/backendarch/core/categorymanagement/domain/model/Category.java:135-137 | true exactly when some category links to this one |
| Categories.CategoryTree.IsActive | src/main/java/org/pedrcruz/backendarch/core/categorymanagement/domain/model/Category.java:204-206 | the category's activity flag |

## Left out

- Clock reads are not modelled. `Date.now()` and `DateTime.now()` appear as `today` and `now` parameters. The stamps `lastUpdatedDate`, `lastActivityChangeDate` and the registration dates are left out.
- `Date.toLocalDateTime` with a `ZoneId` is not modelled. Time-zone rules are outside the model.
- Parsed date-times always have zero nanoseconds. The text round trip is stated for that case only, because the `dd-MM-yyyy:HH:mm:ss` pattern drops fractions of a second.
- The date text parse goes beyond the digit-pattern check. It follows the formatter's default SMART resolver: fields out of range are refused, and a day past the end of its month becomes that month's last day.
- The UUID in `anonymizeAndDisable` is a parameter, since it is random.
- Which characters are Unicode letters (`\p{L}`) is a parameter of `Word`. So is the accent-stripping, case-insensitive equivalence used by `sameAs`. Both call into library code outside this model.
- `BigDecimal` prices and totals are integer cents. Rounding and scale are not modelled.
- Persistence is not modelled. This covers JPA/Hibernate mapping, proxies, caching and the `@Version` increment; versions are plain fields.
- Transactions are not modelled beyond the rollback of a failed command, whose table stays as it was.
- Generated ids are unique within one table only. Uniqueness across tables is not modelled.
- Spring Data derived queries are not modelled (`findByTotalAmountBetween`, `findByTotalAmountGreaterThan`, `findByTotalAmountLessThan`, `findByCustomerAndStatus`, the quantity-range finders). They are framework-generated and carry no logic of the core.
- Category identity is the arena key. The eapli `DomainEntities.areEqual` comparison by name is not modelled.
- `Category.deactivate` walks a `HashSet` in an order Java does not fix. The model proves the final state, which does not depend on that order.
- The Product and Category application services, the mappers, the REST controllers, the exception-to-status mapping, security, bootstrapping and console output are not modelled. They only forward to the modelled entity methods or are framework glue.
- Categories.CategoryTree.NewCategory writes the parent link twice: first as no parent, when InsertRoot creates the category, then as the given parent, when AttachNewRoot attaches it. Java writes the given parent twice, once in the constructor and once in `addSubcategory`. Both leave the same final link. The `equals` check in that call is not modelled, because identity is the fresh arena key.
- Words.Word.CompareTo takes a non-null argument. `Word.compareTo(null)` throws a NullPointerException when it reads `o.word`, and that call is not modelled.
- Words.Word.CompareTo compares code points, because Dafny strings are sequences of Unicode scalar values. Java's `String.compareTo` compares UTF-16 code units. The sign therefore differs when a supplementary character (above U+FFFF) meets a character in U+E000..U+FFFF at the first difference. For example, "\U{FF21}b" against "\U{20000}b" is positive in Java and negative here.
- Numbers.ParseLong accepts only the ASCII digits 0 to 9. `Long.parseLong` also accepts the other Unicode decimal digits recognised by `Character.digit`, such as Arabic-Indic digits, and those are not modelled.
- OrderRules.AddItem adds the merged quantity `item.getQuantity() + quantity` without 32-bit wrap-around, because an order line of two billion units lies outside the quantities the shop handles.
- Inventories.Inventory.AddQuantity uses the intended mathematical sum rather than Java's wrapping `+=`. The wrapping form is kept as InventoryRules.AddQuantityAsWritten (see Findings).
- Products.Product.AddStock uses the intended mathematical sum rather than Java's wrapping `+=`. The wrapping form is kept as ProductRules.AddStockAsWritten (see Findings).
- Categories.CategoryTree.AddSubcategory and CategoryRules.AddSubcategory use the corrected re-parenting, which also takes the child out of its previous parent's set. The as-written step, which leaves that set stale, is CategoryRules.AddSubcategoryAsWritten (see Findings).
- Paging.PageCount takes the exact quotient of `totalElements` by `size`. Java first converts the `long` to a `double`, which rounds above 2^53, so for such totals the Java count can differ from the model's.
- Paging.Of takes `page`, `size` and `totalElements` as unbounded integers. In Java they are an `int`, an `int` and a `long`. Every value of those types is covered, and the page count is saturated to the `int` range as the `(int)` cast does.
- Plain getters have no rows of their own. `getHierarchicalPath` is stated by Categories.CategoryTree.PathExtendsAncestorPath.

## Findings

| source | as written | input that shows it | evidently intended | confidence | as-written member | corrected member |
|---|---|---|---|---|---|---|
| src/main/java/org/pedrcruz/backendarch/core/categorymanagement/domain/model/Category.java:110-111 | `addSubcategory` adds the child to this category's set and sets its parent, but leaves the child in its previous parent's subcategory set | categories 1, 2, 3: `1.addSubcategory(2)`, `3.addSubcategory(2)`, `2.addSubcategory(1)` all pass; 2 is still in 1's set while 1 is in 2's, so `deactivate` on either recurses without end | re-parenting moves the child: it leaves the old parent's set, so the sets always mirror the parent links and stay acyclic | high, not executed | CategoryRules.StaleSubcategoryMakesCycle | CategoryRules.CorrectedAttachKeepsSetsConsistent |
| src/main/java/org/pedrcruz/backendarch/core/inventorymanagement/domain/model/Inventory.java:147-153 | `currentQuantity += quantity` on an `int` after checking only `quantity >= 0` | currentQuantity = 2147483647, `addQuantity(1)`: accepted, and the quantity becomes -2147483648 | a non-negative quantity that stays non-negative, as every other mutator ensures | medium, not executed | InventoryRules.AddQuantityAsWrittenOverflows | InventoryRules.ApplyStockPreservesValid |
| src/main/java/org/pedrcruz/backendarch/core/productmanagement/domain/model/Product.java:219-225 | `stockQuantity += quantity` on an `int` after checking only `quantity > 0` | stockQuantity = 2147483647, `addStock(1)`: accepted, and the stock becomes -2147483648 | stock that stays non-negative, as the constructor and `updateStockQuantity` demand | medium, not executed | ProductRules.AddStockAsWrittenOverflows | ProductRules.MutatorsPreserveValid |
