# Finance tracker: a verified model of the transaction store and its reports

This project models the core of a small command-line personal finance
tracker written in Java. The tracker keeps a list of income and expense
transactions in insertion order. It hands out sequential numeric ids. It
stores the list in a comma-separated text file, one line per transaction,
and computes reports over the list:
- the current balance;
- a monthly report with per-category breakdowns;
- a yearly report with a per-month breakdown.

The model is split into seven modules:

- `Wrappers`: `Option` and `Result`.
- `Text`: decimal numerals (`String.valueOf`, zero-padded fields), ASCII
  `equalsIgnoreCase`, and Java's `String.split(",")`, which drops trailing
  empty strings.
- `Ledger`: the `Transaction` record, as a datatype with amounts in cents
  and a date that is a valid Gregorian day of a four-digit year. It also
  holds the three setters as update functions, and the display layout of
  `getFormattedString`.
- `Codec`: the file line format.
  - `Transaction.toString` (`id,type,category,amount,description,date`,
    amount in `%.2f`, date as the full-date of section 5.6 of RFC 3339).
  - The loader's parsing of each line.
  - The whole-file load and save, as specification functions, plus the
    loader's `while` loop and the saver's `for` loop as methods proved
    against them.
- `Queries`: the order-preserving stream filters (category ignoring case,
  month of a year, year, and `removeIf` by id).
- `Reports`: the values the report methods compute before printing them.
  - Totals per type, where the type must be exactly `"INCOME"` or
    `"EXPENSE"`.
  - The category breakdown: group by category, sum, and sort largest first.
  - The per-month breakdown of a year.
- `Store`: the `FinanceTracker` class, whose fields are the list, the id
  counter and the data file (its lines, or `None` when it does not
  exist). Its methods are opening (loading), adding, deleting and saving.

The main results are:
- The file format round-trips whenever no text field holds a comma.
- A comma in a field makes the loader drop the line.
- A failed load carries the error (the bad amount or date text) of the
  first line that fails to parse.
- Each report breakdown agrees with the totals.
- Adding appends exactly one transaction under the counter's numeral.
- Deleting removes every transaction with the id, and saves only when
  something was removed.
- Seeding the counter with `size + 1` after a reload can reissue an id
  that is still in use.

Two behaviours of the code are worth knowing, and the model keeps both:
- Ids are meant to be unique, yet `deleteTransaction` uses `removeIf`
  (FinanceTracker.java:170), which removes *every* transaction with the
  id, not just the first.
- An amount or a date that does not parse aborts the load. The exceptions
  thrown by `Double.parseDouble` and `LocalDate.parse`
  (FinanceTracker.java:221-223) are not `IOException`s, so the `catch` at
  FinanceTracker.java:228 does not handle them. They escape the
  constructor, and the static `new FinanceTracker()` at Main.java:4 stops
  the program at start-up. The model returns them as `Err` from
  `Store.FinanceTracker.Open`.

## Model

| member | source | states |
|---|---|---|
| Text.NatToString | FinanceTracker.java:32 | the id written for a counter value is a non-empty string of decimal digits |
| Text.NatToStringRoundTrip | FinanceTracker.java:32 | reading an id numeral back gives the counter value it was written from |
| Text.NatToStringCanonical | FinanceTracker.java:32 | an id numeral starts with 0 exactly when the counter was 0: ids have no leading zeros |
| Text.NatToStringInjective | FinanceTracker.java:32 | distinct counter values give distinct ids |
| Text.PadDigits | Transaction.java:36-37 | a zero-padded field has exactly the requested width and only digits |
| Text.PadDigitsRoundTrip | Transaction.java:36-37 | a zero-padded field reads back as its number when the number fits the width |
| Text.EqualsIgnoreCase | FinanceTracker.java:55 | equal strings match ignoring case, and matching strings have the same length; Text.EqualsIgnoreCaseIsLowerEquality and Text.EqualsIgnoreCaseEquivalence characterize it |
| Text.EqualsIgnoreCaseIsLowerEquality | FinanceTracker.java:55 | comparing ignoring case is equality after lower-casing every character (both directions) |
| Text.EqualsIgnoreCaseEquivalence | FinanceTracker.java:55 | comparing ignoring case is reflexive, symmetric and transitive |
| Text.Split | FinanceTracker.java:218 | no piece of a split line holds a comma, and a line with n commas gives at most n + 1 pieces; Text.SplitRule states which pieces are dropped |
| Text.SplitRule | FinanceTracker.java:218 | a line without a comma is one piece; otherwise the pieces between commas are kept up to the last non-empty one, and only the trailing empty pieces after it are dropped |
| Text.JoinSplitAll | FinanceTracker.java:218 | joining the comma-separated pieces gives the line back, and no piece holds a comma |
| Text.SplitAllJoin | FinanceTracker.java:218 | splitting comma-free pieces joined by commas gives the same pieces back |
| Text.SplitAllCount | FinanceTracker.java:218 | a line with n commas has n + 1 pieces before trailing empty ones are dropped |
| Text.SplitAllAtComma | FinanceTracker.java:218 | splitting at a comma gives the pieces of the left part followed by those of the right part |
| Text.CommaCountZero | FinanceTracker.java:218 | a string has no comma iff its comma count is zero |
| Text.SplitKeepsAllPieces | FinanceTracker.java:218 | when the line does not end in a comma, split drops no piece |
| Ledger.DaysInMonth | FinanceTracker.java:223 | every month of the calendar has between 28 and 31 days |
| Ledger.SetCategory | Transaction.java:30 | setCategory changes the category and leaves the other five fields unchanged |
| Ledger.SetAmount | Transaction.java:31 | setAmount changes the amount and leaves the other five fields unchanged |
| Ledger.SetDescription | Transaction.java:32 | setDescription changes the description and leaves the other five fields unchanged |
| Ledger.EditsKeepIdentity | Transaction.java:29-32 | no sequence of setter calls changes the id, the type or the date |
| Ledger.LastAmountWins | Transaction.java:31 | after any edits, the amount last set is the amount held |
| Ledger.FormatAmount | Transaction.java:36 | the %.2f text has a point in third position from the end with digits before it and exactly two digits after it |
| Ledger.DisplayDate | Transaction.java:41-43 | the dd-MM-yyyy text has ten characters with dashes at positions 2 and 5 |
| Ledger.FormattedString | Transaction.java:40-43 | the display line ends with the dd-MM-yyyy date; Ledger.FormattedStringLayout places the id and the amount |
| Ledger.FormattedStringLayout | Transaction.java:40-43 | the display line starts with "ID: " and the id, shows the %.2f amount right after the "$" that follows id, type and category, and ends with the dd-MM-yyyy date |
| Codec.ParseAmount | FinanceTracker.java:222 | an accepted amount text is non-empty and made only of digits and the decimal point; Codec.ParseFormatAmount makes it the inverse of %.2f |
| Codec.ParseFormatAmount | Transaction.java:36 | the %.2f text of an amount parses back to the same number of cents |
| Codec.FormatDate | Transaction.java:37 | the written date is yyyy-MM-dd: ten characters, dashes at 4 and 7, digit fields |
| Codec.ParseDate | FinanceTracker.java:223 | an accepted date text has ten characters and no comma; Codec.ParseFormatDate and Codec.ParseDateCanonical make it exactly the inverse of the yyyy-MM-dd writer |
| Codec.ParseFormatDate | FinanceTracker.java:223 | the written date parses back to the same date |
| Codec.ParseDateCanonical | FinanceTracker.java:223 | any text that parses as a date is exactly the text that date is written as |
| Codec.DisplayDateReordersFileDate | Transaction.java:41-43 | the displayed date lists the file's day, month and year in reverse order, and year 0 displays as 0001 |
| Codec.Encode | Transaction.java:35-38 | a written line holds five separator commas plus the commas inside id, type, category and description; Codec.EncodeIsJoin and Codec.EncodeRoundTrip give its fields and its inverse |
| Codec.ParseLine | FinanceTracker.java:218-224 | a line is skipped iff it does not split into six fields, and a parsed transaction has no comma in any text field; Codec.EncodeRoundTrip relates it to toString |
| Codec.EncodeIsJoin | Transaction.java:35-38 | the written line is the six fields id, type, category, amount, description and date joined by commas in that order |
| Codec.NoCommaInNumerals | Transaction.java:36-37 | the amount and date fields never contain a comma |
| Codec.SplitEncode | FinanceTracker.java:218-219 | a written line splits into 6 pieces plus one per comma inside id, type, category and description |
| Codec.EncodeRoundTrip | FinanceTracker.java:218-224 | a written line parses back to the same transaction iff no text field holds a comma, and is skipped otherwise |
| Codec.Save | FinanceTracker.java:198-206 | saving writes one line per transaction |
| Codec.Load | FinanceTracker.java:209-231 | a successful load keeps at most one transaction per line, none with a comma in a text field; Codec.LoadOkIff, Codec.LoadCount and Codec.LoadFailsAtFirst give its outcome |
| Codec.LoadSaveRoundTrip | FinanceTracker.java:209-231 | loading a saved list gives the same list back when no text field holds a comma |
| Codec.ReloadIsStable | FinanceTracker.java:198-231 | saving a loaded list and loading the file again gives the same list |
| Codec.LoadOkIff | FinanceTracker.java:217-226 | a load succeeds iff no line has an amount or a date that fails to parse |
| Codec.LoadCount | FinanceTracker.java:217-226 | a successful load keeps exactly one transaction per line that splits into six fields |
| Codec.LoadFailsAtFirst | FinanceTracker.java:217-226 | a failed load carries the error of the first line that fails, every earlier line having parsed or been skipped |
| Codec.LoadAppend | FinanceTracker.java:217-226 | loading two parts in turn: a failure in the first stops the load; otherwise both parts' transactions in file order |
| Codec.LoadLines | FinanceTracker.java:215-227 | the reading loop computes exactly the load of the file's lines |
| Codec.RenderLines | FinanceTracker.java:199-202 | the writing loop produces, at every position, the line of the transaction at that position |
| Queries.Filter | FinanceTracker.java:54-56 | a stream filter keeps exactly the elements that pass, and never more than it was given |
| Queries.FilterAppend | FinanceTracker.java:54-56 | filtering keeps the relative order: filtering a concatenation concatenates the filtered parts |
| Queries.FilterFilter | FinanceTracker.java:132-134 | filtering the year's list by month equals filtering once by both tests |
| Queries.FilterComplementLength | FinanceTracker.java:170 | a filter and its complement share out the elements between them |
| Queries.ByCategory | FinanceTracker.java:54-56 | the category view holds exactly the transactions whose category equals the query ignoring case |
| Queries.ByMonth | FinanceTracker.java:71-73 | the monthly set holds exactly the transactions of that month of that year |
| Queries.ByYear | FinanceTracker.java:105-107 | the yearly set holds exactly the transactions of that year |
| Queries.RemoveId | FinanceTracker.java:170 | deletion keeps exactly the transactions with another id |
| Queries.RemoveIdCount | FinanceTracker.java:170-171 | deletion shrinks the list by the number of matching transactions, so it reports removal iff some transaction has the id |
| Queries.ByMonthWithinYear | FinanceTracker.java:132-134 | the yearly report's month filter over the year's list gives the monthly report's set |
| Queries.LowerCaseQueryFindsCategory | FinanceTracker.java:55 | the query "food" finds a transaction stored under "Food" |
| Reports.ByKind | FinanceTracker.java:80-82 | the type filter keeps exactly the transactions whose type equals the given string exactly |
| Reports.SumPartition | FinanceTracker.java:80-88 | summing over a disjoint union of two tests is adding the two sums |
| Reports.TotalOf | FinanceTracker.java:80-88 | a type total never exceeds the sum of all amounts; Reports.TotalOfAppend and Reports.BalanceStep give it step by step |
| Reports.TotalsOf | FinanceTracker.java:181-189 | income and expense together never exceed the sum of all amounts, and net is income minus expense; Reports.BalanceStep gives each step |
| Reports.TotalOfAppend | FinanceTracker.java:80-83 | a type total over two lists is the sum of the two totals |
| Reports.CurrentBalance | FinanceTracker.java:181-194 | income and expense come from disjoint transactions, so together they never exceed the sum of all amounts, and the balance is income minus expense; Reports.BalanceStep gives each step |
| Reports.BalanceStep | FinanceTracker.java:181-194 | the empty list has zero totals; one more transaction adds its amount to income only for "INCOME", to expense only for "EXPENSE", and net moves by plus or minus that amount |
| Reports.AddTo | FinanceTracker.java:156-158 | adding an amount to the grouping adds it to exactly that category's total and to the grand total |
| Reports.GroupByCategory | FinanceTracker.java:154-159 | the grouping has at most one entry per transaction and its totals add up to the sum of all amounts; Reports.GroupByCategorySpec gives each entry |
| Reports.GroupByCategorySpec | FinanceTracker.java:154-159 | the grouping has one entry per distinct category, each holding that category's sum, and its totals add up to the sum of all amounts |
| Reports.Insert | FinanceTracker.java:162 | inserting adds exactly one entry: the result is the old entries plus the new one, as a multiset |
| Reports.InsertSorted | FinanceTracker.java:162 | inserting into a list sorted largest first keeps it sorted |
| Reports.InsertEntries | FinanceTracker.java:162 | inserting adds the entry's total and category and keeps categories distinct |
| Reports.SortByTotalDesc | FinanceTracker.java:161-162 | the sort is a permutation of the grouping |
| Reports.SortByTotalDescSpec | FinanceTracker.java:161-162 | the sorted entries are in non-increasing order of total and keep the totals, categories and distinctness |
| Reports.CategoryBreakdown | FinanceTracker.java:153-165 | the breakdown lists entries largest total first; the Reports.CategoryBreakdown lemmas below give its entries and sum |
| Reports.CategoryBreakdownSorted | FinanceTracker.java:153-165 | the breakdown lists entries largest total first and no category twice |
| Reports.CategoryBreakdownEntry | FinanceTracker.java:154-159 | each entry holds the sum of its category's amounts within the type |
| Reports.CategoryBreakdownCategories | FinanceTracker.java:154-159 | a category appears iff some transaction of that type has it |
| Reports.CategoryBreakdownSum | FinanceTracker.java:153-159 | the breakdown's totals add up to the type's total |
| Reports.MonthRowsFrom | FinanceTracker.java:131-136 | the monthly breakdown lists months within the range and in strictly ascending order |
| Reports.RowFor | FinanceTracker.java:132-147 | one month gives at most one row, labelled with that month; Reports.RowForSpec gives when it exists and what it holds |
| Reports.RowForSpec | FinanceTracker.java:132-147 | a month has a row iff it has a transaction, and the row holds that month's income and expense totals |
| Reports.MonthRowsSum | FinanceTracker.java:131-148 | the rows from a month on add up to the type totals of the transactions dated from that month on |
| Reports.MonthRowsHas | FinanceTracker.java:131-136 | a month has a row iff it is within range and has a transaction |
| Reports.MonthRowsHold | FinanceTracker.java:137-147 | every row holds its month's income, expense and net |
| Reports.MonthlyBreakdown | FinanceTracker.java:131-148 | the rows are months 1 to 12 in strictly ascending order, at most one per month; the Reports.MonthlyBreakdown lemmas below give which months and what each row holds |
| Reports.MonthlyBreakdownMonths | FinanceTracker.java:131-136 | a month of the year has a row iff some transaction is dated in that month of that year |
| Reports.MonthlyBreakdownRows | FinanceTracker.java:132-147 | each row holds the totals of the monthly set of its month |
| Reports.MonthlyBreakdownSums | FinanceTracker.java:114-148 | the rows' incomes and expenses add up to the year's totals |
| Reports.MonthlyReportOf | FinanceTracker.java:70-101 | a monthly report's net is income minus expense and both category breakdowns list largest first; Reports.MonthlyReportSpec gives when it exists and its sums |
| Reports.MonthlyReportSpec | FinanceTracker.java:70-101 | a monthly report exists iff the month has a transaction; its income and expense are the sums over the transactions of that type, month and year; its breakdowns are sorted and add up to its totals; net is income minus expense |
| Reports.YearRowAgrees | FinanceTracker.java:131-147 | each row of the yearly breakdown equals the totals of the monthly report of its month |
| Reports.YearlyReportOf | FinanceTracker.java:104-150 | a yearly report's net is income minus expense and its monthly rows come in ascending month order; Reports.YearlyReportSpec gives when it exists and its sums |
| Reports.YearlyReportSpec | FinanceTracker.java:104-150 | a yearly report exists iff the year has a transaction; its rows add up to its totals and agree with the monthly reports |
| Reports.SingleTransactionBreakdown | FinanceTracker.java:153-165 | a type with a single transaction breaks down to that transaction's category and amount |
| Reports.MarchScenario | FinanceTracker.java:70-101 | a salary of 1000.00 and a lunch of 50.25 in March 2024 give income 1000.00, expense 50.25, net 949.75 and one category each |
| Store.CategoriesFor | FinanceTracker.java:14-21 | the menu lists no category twice, a listed category belongs to the income list iff the type is exactly "INCOME" (the two lists are disjoint), and no category holds a comma |
| Store.FinanceTracker.FromLoaded | FinanceTracker.java:23-27 | the constructor keeps the loaded list and sets the counter to its size + 1 |
| Store.FinanceTracker.Open | FinanceTracker.java:23-27 | no file gives an empty store; otherwise the store holds the loaded list, the counter is its size + 1, and a failing line makes opening fail with that line's error |
| Store.FinanceTracker.SaveTransactions | FinanceTracker.java:198-206 | the file becomes the saved lines of the list; the list and the counter are unchanged |
| Store.FinanceTracker.AddTransaction | FinanceTracker.java:30-37 | appends exactly one transaction, whose id is the numeral of the old counter, leaving earlier entries unchanged; the counter grows by one and the file is rewritten |
| Store.FinanceTracker.DeleteTransaction | FinanceTracker.java:169-177 | removes every transaction with the id and keeps the rest in order; reports removal iff one matched; saves only then, and otherwise changes nothing |
| Store.ReloadReissuesAnyLiveId | FinanceTracker.java:23-27 | for any saved comma-free list holding a transaction whose id is the numeral of size + 1, the reopened counter's next id is that live id |
| Store.ReloadReissuesLiveId | FinanceTracker.java:26 | after a reload of a saved file holding only transaction "2", the counter's next id is "2", an id still in use |

## Left out

- Reading and writing the actual file. The file is its list of lines;
  `File.exists` is whether that list is present.
- `IOException`. A load interrupted by a read error, and a failed save,
  are not modelled: saving always succeeds.
- All console output. `viewAllTransactions`, `viewTransactionsByCategory`,
  `generateMonthlyReport`, `generateYearlyReport`, `getCurrentBalance` and
  `displayCategories` print. The model computes what they print as
  functions of the stored list: `Queries.ByCategory`, `Reports.MonthlyReportOf`,
  `Reports.YearlyReportOf` and `Reports.CurrentBalance`. The text layout of
  the printed lines is not modelled.
- `LocalDate.now()` in `addTransaction` is a parameter.
- The interactive menu and input loops of `Main.java`, including its
  amount and category-index checks, are not part of this model.
- Amounts are non-negative whole cents, not `double`. Floating-point
  rounding in sums and in `%.2f` is not modelled, nor are negative
  amounts.
- `%.2f` is assumed to use a point as its decimal separator. A locale
  that writes a decimal comma would change the line format.
- Codec.ParseAmount accepts only unsigned decimal numerals with at most two
  fraction digits. The texts `Double.parseDouble` also accepts (signs,
  exponents, surrounding blanks, more fraction digits, `NaN`, hexadecimal)
  are treated as parse failures.
- Dates are limited to the years 0000 to 9999. `LocalDate` years outside
  that range, and their signed text forms, are not modelled.
- Store.FinanceTracker.AddTransaction: the counter is an unbounded natural
  number. Java's `int` wrap-around after 2147483647 ids is not modelled.
- `equalsIgnoreCase` is modelled on ASCII letters only. Unicode case
  folding is not.
- Ties in the category sort come out in `HashMap` order, which is
  unspecified. The model fixes one order and states only what holds for
  every order: non-increasing totals, and a permutation of the grouping.
- A Java `Transaction` is a mutable object that may be shared. Here it is
  a value, and a setter returns the updated value, so aliasing is not
  modelled. The constructor and getters are the datatype's constructor and
  fields, so there is nothing to prove about them.
- A field that holds a line break would split the saved line in two when
  read back. The file is modelled as already split into lines, so this is
  not captured.
