# Theme-park ride, modelled in Dafny

This project models the ride of a small theme-park management program, together with the visitors it carries:

- **The ride** (`src/Ride.java`) holds:
  - an optional operator;
  - the number of riders per cycle (`maxRider`);
  - a cycle counter;
  - a first-in-first-out waiting queue;
  - a ride history, the visitors in the order they rode.
- **Its operations:**
  - join the queue and leave it;
  - add to the history, look a visitor up in it, and count it;
  - run one cycle, which moves visitors from the head of the queue to the end of the history;
  - sort the history with a caller-supplied comparator;
  - export the history to a CSV file, one line per visitor, and import it back.
- **A visitor** (`src/Visitor.java`, extending `src/Person.java`) has five fields: name, age, id, membership level and ticket count. Two visitors are equal when they have the same id and name, and the hash code is the hash of the id.

## Modules

- `JavaLang` (`java_lang.dfy`): the Java platform behaviour the core relies on.
  - 32-bit `int` with wrap-around.
  - `String.trim`, `String.split(",")` and `String.join`.
  - `Integer.parseInt`, `String.valueOf(int)` and `String.hashCode`.
- `StableSorting` (`stable_sorting.dfy`): `List.sort(Comparator)` as a stable sort of (tag, key) pairs.
  - It proves the sort sorted, stable and a permutation.
  - It also proves the sort unique: every sorted, stable rearrangement equals it, so the choice of sorting algorithm does not matter.
- `Visitors` (`visitor.dfy`): `Person` and `Visitor` as one class.
  - It has the constructors, getters and setters, `equals` and `hashCode`.
  - Lemmas state the `equals`/`hashCode` contract.
- `RideCsv` (`ride_csv.dfy`): the line format of the history file and the per-line reading of the import loop.
  - Blank lines are skipped, and every other line gives one visitor or one error.
  - Exported lines import back to the same visitors when the text fields contain no commas and no line breaks, and the name does not start with a character that `trim` removes.
- `Rides` (`ride.dfy`): class `Ride` on its fields, each operation a method whose contract gives the new state.
  - Export returns the lines it would write.
  - Import reads the file's lines from a `FileState` parameter.

The code has no range validation on age, tickets or `maxRider`, and the model follows it in that. The model also follows the code in three other respects:

- A cycle with `maxRider <= 0` moves nobody but still counts as a cycle.
- `split` drops trailing empty fields, so `a,1,id,` has three fields and is rejected.
- `parseInt` accepts an optional sign followed by digits, in the range of `int`.

## Model

| member | source | states |
|---|---|---|
| JavaLang.Wrap32 | src/Ride.java:158 | the two's-complement wrap of an integer into `int`: unchanged inside the range, and always congruent modulo 2^32 |
| JavaLang.Increment | src/Ride.java:158 | `numOfCycles++` adds one below `INT_MAX` and wraps `INT_MAX` to `INT_MIN` |
| JavaLang.Trim | src/Ride.java:224 | `trim` result: empty iff every character is at most U+0020; otherwise it is the piece of `s` from its first to its last character above U+0020, with only characters at most U+0020 before and after it; a string already so bounded is unchanged |
| JavaLang.Split | src/Ride.java:230 | `split(",")`: the fields are comma-free; a string without a comma comes back whole; with a comma, the last field is not empty (trailing empty fields are dropped). `SplitOfJoinWithTrailingEmpty` and `SplitDecomposes` together give its value on every string with a comma |
| JavaLang.SplitOfJoinWithTrailingEmpty | src/Ride.java:230 | the comma join of comma-free fields, the last not empty, followed by any number of empty fields (two or more fields in all), splits into exactly those fields: trailing empty fields are dropped, however many |
| JavaLang.SplitDecomposes | src/Ride.java:230 | every string with a comma is the comma join of its `split` fields followed by the empty fields `split` dropped, so `SplitOfJoinWithTrailingEmpty` covers every such string |
| JavaLang.DropOfEmpties | src/Ride.java:230 | dropping the trailing empty strings of fields followed by empty strings gives the fields back, when they do not themselves end empty |
| JavaLang.Join | src/Ride.java:182-188 | `String.join(",")`; `SplitOfJoin` and `PiecesOfJoin` state that splitting gives the fields back, `JoinOfPieces` the converse |
| JavaLang.IntToString | src/Ride.java:184-187 | `String.valueOf(int)`; `ParseIntOfIntToString` states that `parseInt` reads it back and that it is non-empty and comma-free |
| JavaLang.StringHashCode | src/Visitor.java:47 | `String.hashCode`: `h = 31 * h + c` over the characters in `int` arithmetic; `HashCodeAgreesWithEquals` states the property the program needs of it |
| JavaLang.SplitOfJoin | src/Ride.java:182-188 | `split(",")` of the `String.join(",")` of two or more comma-free fields, the last not empty, gives those fields back |
| JavaLang.JoinOfPieces | src/Ride.java:230 | joining the comma-separated pieces of any string with commas gives the string back |
| JavaLang.PiecesOfJoin | src/Ride.java:230 | cutting a join of comma-free strings at every comma gives the strings back |
| JavaLang.ParseInt | src/Ride.java:233 | `Integer.parseInt` succeeds exactly on an optional sign followed by at least one digit, with a value inside the `int` range, and then returns that value |
| JavaLang.ParseIntOfIntToString | src/Ride.java:184 | `parseInt` reads back every `int` written by `String.valueOf`; the text is non-empty, comma-free and starts and ends with a character `trim` keeps |
| JavaLang.NatToDigits | src/Ride.java:184 | the decimal digits of a natural number: non-empty, all digits, no leading zero, with the number as value |
| StableSorting.ComparatorIsTotalPreorder | src/Ride.java:278 | a comparator that obeys the `Comparator` contract makes "compares at most 0" reflexive, total and transitive, and "compares as 0" an equivalence |
| StableSorting.StableSort | src/Ride.java:278 | `List.sort` result is a rearrangement: the same multiset of elements |
| StableSorting.StableSortSorted | src/Ride.java:278 | the sorted sequence is in non-decreasing comparator order |
| StableSorting.StableSortIsStable | src/Ride.java:278 | for every key, the elements that compare as equal to it keep their relative order |
| StableSorting.StableSortPermutesTags | src/Ride.java:278 | sorting keeps the same multiset of tags (visitors) |
| StableSorting.StableSortOfSorted | src/Ride.java:278 | sorting an already sorted sequence leaves it unchanged |
| StableSorting.StableSortIdempotent | src/Ride.java:278 | sorting twice by the same comparator is the same as sorting once |
| StableSorting.SortedWithSameClassesAreEqual | src/Ride.java:278 | two sorted sequences that agree on every key class are equal |
| StableSorting.StableSortIsUnique | src/Ride.java:278 | any sorted rearrangement that keeps each key class in its original order is the stable sort, so every stable sort algorithm agrees with this one |
| StableSorting.InsertSorted | src/Ride.java:278 | inserting into a sorted sequence keeps it sorted |
| StableSorting.ClassOfInsert | src/Ride.java:278 | inserting an element adds it at the front of its key class and changes no other class |
| Visitors.Visitor.constructor | src/Visitor.java:13-17 | the four-argument constructor stores the name, age, id and membership level as given, and one ticket |
| Visitors.Visitor.WithTickets | src/Visitor.java:19-23 | the five-argument constructor stores all five fields as given, a negative ticket count included |
| Visitors.Visitor.GetName | src/Person.java:21 | returns the stored name and changes nothing |
| Visitors.Visitor.SetName | src/Person.java:22 | stores the name as given and changes no other field |
| Visitors.Visitor.GetAge | src/Person.java:23 | returns the stored age and changes nothing |
| Visitors.Visitor.SetAge | src/Person.java:24 | stores any `int` as the age, with no range check, and changes no other field |
| Visitors.Visitor.GetId | src/Person.java:25 | returns the stored id and changes nothing |
| Visitors.Visitor.SetId | src/Person.java:26 | stores the id as given and changes no other field |
| Visitors.Visitor.GetMembershipLevel | src/Visitor.java:26 | returns the stored membership level and changes nothing |
| Visitors.Visitor.SetMembershipLevel | src/Visitor.java:27 | stores the membership level as given and changes no other field |
| Visitors.Visitor.GetTickets | src/Visitor.java:28 | returns the stored ticket count and changes nothing |
| Visitors.Visitor.SetTickets | src/Visitor.java:29 | stores any `int` as the ticket count and changes no other field |
| Visitors.Visitor.Equals | src/Visitor.java:38-43 | `equals` holds iff the other visitor is not null and has the same id and name |
| Visitors.Visitor.HashCode | src/Visitor.java:46-48 | the hash code of the id alone; `HashCodeAgreesWithEquals` states that equal visitors hash alike |
| Visitors.EqualsIgnoresOtherFields | src/Visitor.java:42 | age, membership level and tickets play no part in `equals` |
| Visitors.EqualsIsReflexive | src/Visitor.java:39 | every visitor equals itself |
| Visitors.EqualsIsSymmetric | src/Visitor.java:42 | `a.equals(b)` iff `b.equals(a)` |
| Visitors.EqualsIsTransitive | src/Visitor.java:42 | `equals` is transitive |
| Visitors.HashCodeAgreesWithEquals | src/Visitor.java:46-48 | equal visitors have equal hash codes |
| RideCsv.FormatLine | src/Ride.java:182-188 | the exported line, the five fields joined by commas; `LineRoundTrip` states that `ReadLine` reads it back to the same fields |
| RideCsv.ExportLines | src/Ride.java:181-191 | exporting writes one line per visitor, in history order, the i-th line being the formatted fields of the i-th visitor |
| RideCsv.ReadLine | src/Ride.java:224-251 | the per-line import step: a blank line is skipped; fewer than four fields is an invalid-format error; a line with four or more fields is an invalid-number error exactly when field 2, or field 5 when present, does not parse; otherwise it is imported with name, id and membership from fields 1, 3 and 4, age parsed from field 2, and tickets parsed from field 5 or 1 when there is none |
| RideCsv.ImportOfSnoc | src/Ride.java:222-252 | one more line adds its own visitor (if any) at the end of the imported visitors and its own error (if any) to the count |
| RideCsv.OneOutcomePerLine | src/Ride.java:227-251 | a blank line adds neither a visitor nor an error; every other line adds exactly one of the two |
| RideCsv.ImportAccounting | src/Ride.java:222-252 | imported visitors plus errors equals the number of non-blank lines |
| RideCsv.BlankLinesAreSkipped | src/Ride.java:227 | appending blank lines changes neither the imported visitors nor the error count |
| RideCsv.DefaultTicketCount | src/Ride.java:236 | a line with exactly four fields that imports gets one ticket |
| RideCsv.SplitDropsTrailingEmptyField | src/Ride.java:230 | `a,b,c,` with comma-free fields and a non-empty `c` splits into three fields |
| RideCsv.TrailingEmptyFieldIsRejected | src/Ride.java:230-244 | such a line (name, age, id, then a trailing comma) is rejected as an invalid format instead of getting an empty membership level |
| RideCsv.LineRoundTrip | src/Ride.java:182-238 | reading back the exported line of a visitor whose text fields contain no comma and no line break and whose name does not start with a character `trim` removes gives the same five fields |
| RideCsv.ImportOfExport | src/Ride.java:181-252 | importing the exported lines of such visitors appends exactly those visitors, in order, with no errors |
| Rides.RidersPerCycle | src/Ride.java:150 | riders in one cycle: never more than wait, none when `maxRider <= 0`, otherwise the smaller of the two |
| Rides.SortedBy | src/Ride.java:278 | `rideHistory.sort(cmp)` on the visitors, the comparator seeing their fields; `SortedByIsStableSort` and `SortedByIsOrdered` state what it returns |
| Rides.SortedByIsStableSort | src/Ride.java:278 | sorting the history keeps the same visitors, each with its own fields, in the order of the stable sort of their fields |
| Rides.SortedByIsOrdered | src/Ride.java:278 | with a lawful comparator the sorted visitors are in non-decreasing order and equal-comparing visitors keep their relative order |
| Rides.Ride.constructor | src/Ride.java:20-25 | a new ride has no name, no operator, two riders per cycle, zero cycles, and an empty queue and history |
| Rides.Ride.Create | src/Ride.java:28-33 | the three-argument constructor stores the name, operator and `maxRider` as given (any value), the rest as the default constructor |
| Rides.Ride.GetRideName | src/Ride.java:36 | returns the stored name |
| Rides.Ride.SetRideName | src/Ride.java:37 | stores the name and changes no other field |
| Rides.Ride.GetOperator | src/Ride.java:38 | returns the stored operator |
| Rides.Ride.SetOperator | src/Ride.java:39 | stores the operator and changes no other field |
| Rides.Ride.GetMaxRider | src/Ride.java:40 | returns the stored `maxRider` |
| Rides.Ride.SetMaxRider | src/Ride.java:41 | stores any `int` as `maxRider` and changes no other field |
| Rides.Ride.GetNumOfCycles | src/Ride.java:42 | returns the cycle counter |
| Rides.Ride.AddVisitorToQueue | src/Ride.java:46-57 | a non-null visitor joins the back of the queue; null leaves it unchanged; history and counter are untouched |
| Rides.Ride.RemoveVisitorFromQueue | src/Ride.java:60-67 | a non-empty queue loses exactly its head, the rest staying in order; an empty queue stays empty |
| Rides.Ride.AddVisitorToHistory | src/Ride.java:85-96 | a non-null visitor is appended to the history, with no deduplication; null leaves it unchanged |
| Rides.Ride.CheckVisitorFromHistory | src/Ride.java:99-107 | true iff the argument is not null and some visitor in the history has its id and name; changes nothing |
| Rides.Ride.NumberOfVisitors | src/Ride.java:110-114 | the length of the history; changes nothing |
| Rides.Ride.RunOneCycle | src/Ride.java:133-163 | no operator gives the no-operator error before anything else, and an empty queue gives the no-visitors error, both leaving queue, history and counter unchanged. Otherwise the first k = `RidersPerCycle` visitors move from the front of the queue to the end of the history, the counter advances by one with wrap-around, and no visitor is lost or duplicated |
| Rides.Ride.ExportRideHistory | src/Ride.java:167-198 | a blank filename is refused; otherwise the lines written are `ExportLines` of the history's fields |
| Rides.Ride.FormatHistory | src/Ride.java:181-191 | the writing loop: the lines are the `ExportLines` of the history's fields, one per visitor in history order |
| Rides.Ride.ImportRideHistory | src/Ride.java:202-263 | a blank filename, a missing file and an unreadable file are refused in that order, leaving the history unchanged. Otherwise the history keeps its old visitors as a prefix and gains one new visitor per imported line, with the fields `ReadLine` gives, in file order; it reports the imported count and the error count, which add up to the non-blank lines |
| Rides.Ride.ImportLines | src/Ride.java:215-252 | the import loop over any per-line reader: appends one fresh visitor per imported outcome, in order, keeps the old history as a prefix, and counts imported lines and errors |
| Rides.Ride.SortRideHistory | src/Ride.java:267-280 | a null comparator or an empty history leaves the history unchanged. Otherwise the history becomes the stable sort of its visitors by the comparator on their fields: the same visitors, and with a lawful comparator in non-decreasing order, with equal-comparing visitors keeping their relative order |

## Left out

- Console output (`System.out.println`) and `printQueue`/`printRideHistory`/`toString`: they do not change the state.
- File-system operations in export and import.
  - `File`, `mkdirs`, the reader and the writer, and `IOException` wrapping are left out.
  - The file under a filename is a `FileState` parameter: missing, unreadable, or readable with its lines already split at line breaks.
  - Export returns the lines it would write.
  - A field containing a line break would be read back as two lines; such visitors are excluded from the round-trip lemmas `LineRoundTrip` and `ImportOfExport` by `Exportable`.
- Exception messages: each exception becomes an error value (`CycleError`, `FileError`) that names its cause.
- Rides.Ride.ImportRideHistory: returns the imported and error counts that the code only prints.
- Rides.Ride.ImportLines: the counters are unbounded naturals, not `int`, because a file with more than 2^31 lines is out of reach.
- Rides.Ride.RunOneCycle: returns the number of riders that the code only prints. The rider counter of its loop is a natural number, because it never exceeds the queue length. The unused local list `currentRiders` is not modelled.
- Rides.Ride.NumberOfVisitors: returns a natural number, not an `int`.
- The no-argument constructors of `Visitor` and `Person`, and null strings: every string field is a Dafny string, so the `NullPointerException`s that a null id or name would cause in `equals` are not modelled. A null ride name is `None`.
- Visitors.Visitor.Equals: compares only with visitors or null. The `getClass()` test against objects of other classes has no counterpart, as the model has no other `Object`s.
- `Employee`, `RideInterface`, the exception classes and `VisitorComparator` are not part of this model. The operator is only tested for null, and the comparator is a parameter on the visitors' fields.
- JavaLang.StringHashCode: works on Dafny characters (Unicode scalar values), so it agrees with Java's UTF-16 `hashCode` only on characters of the Basic Multilingual Plane.
- JavaLang.ParseInt: accepts only ASCII digits, while `Integer.parseInt` also accepts other Unicode decimal digits.
- JavaLang.Trim: treats every character up to U+0020 as blank, like Java's `trim`; other Unicode white space is kept, as in Java.
- Rides.Ride.SortRideHistory: sortedness and stability are stated for comparators that obey the `Comparator` contract. For any other comparator only the permutation and the result of the model's insertion sort are stated, whereas Java may throw or return some other order.
