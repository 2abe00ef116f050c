/**
 * The Transaction record: its six fields, its three setters and its
 * display layout. A Java Transaction is an object; here it is a value, and
 * a setter returns the updated value.
 */
module Ledger {
  import opened Text

  const Income: string := "INCOME"
  const Expense: string := "EXPENSE"

  // ---------------------------------------------------------------------
  // Calendar dates (java.time.LocalDate restricted to the years 0000-9999)

  datatype Date = Date(year: int, month: int, day: int)

  predicate IsLeapYear(year: int)
  {
    year % 4 == 0 && (year % 100 != 0 || year % 400 == 0)
  }

  function DaysInMonth(year: int, month: int): (n: int)
    requires 1 <= month <= 12
    ensures 28 <= n <= 31
  {
    if month == 2 then (if IsLeapYear(year) then 29 else 28)
    else if month == 4 || month == 6 || month == 9 || month == 11 then 30
    else 31
  }

  /** A proleptic Gregorian date whose year has four digits. */
  predicate ValidDate(d: Date)
  {
    0 <= d.year <= 9999 && 1 <= d.month <= 12 && 1 <= d.day <= DaysInMonth(d.year, d.month)
  }

  type LocalDate = d: Date | ValidDate(d) witness Date(2000, 1, 1)

  // ---------------------------------------------------------------------
  // The record

  /**
   * One income or expense entry. `kind` is the Java field `type`; any
   * string is stored, and only "INCOME" and "EXPENSE" take part in the
   * totals. `amount` is in cents.
   */
  datatype Transaction = Transaction(
    id: string,
    kind: string,
    category: string,
    amount: nat,
    description: string,
    date: LocalDate)

  function SetCategory(t: Transaction, category: string): (r: Transaction)
    ensures r.category == category
    ensures r.id == t.id && r.kind == t.kind && r.amount == t.amount
    ensures r.description == t.description && r.date == t.date
  {
    t.(category := category)
  }

  function SetAmount(t: Transaction, amount: nat): (r: Transaction)
    ensures r.amount == amount
    ensures r.id == t.id && r.kind == t.kind && r.category == t.category
    ensures r.description == t.description && r.date == t.date
  {
    t.(amount := amount)
  }

  function SetDescription(t: Transaction, description: string): (r: Transaction)
    ensures r.description == description
    ensures r.id == t.id && r.kind == t.kind && r.category == t.category
    ensures r.amount == t.amount && r.date == t.date
  {
    t.(description := description)
  }

  /** A call of one of the three setters. */
  datatype Edit = EditCategory(category: string) | EditAmount(amount: nat) | EditDescription(description: string)

  function ApplyEdit(t: Transaction, e: Edit): Transaction
  {
    match e
    case EditCategory(c) => SetCategory(t, c)
    case EditAmount(a) => SetAmount(t, a)
    case EditDescription(d) => SetDescription(t, d)
  }

  function ApplyEdits(t: Transaction, edits: seq<Edit>): Transaction
    decreases edits
  {
    if edits == [] then t else ApplyEdits(ApplyEdit(t, edits[0]), edits[1..])
  }

  /** No sequence of setter calls changes the id, the type or the date. */
  lemma {:induction false} EditsKeepIdentity(t: Transaction, edits: seq<Edit>)
    ensures ApplyEdits(t, edits).id == t.id
    ensures ApplyEdits(t, edits).kind == t.kind
    ensures ApplyEdits(t, edits).date == t.date
    decreases edits
  {
    if edits != [] {
      EditsKeepIdentity(ApplyEdit(t, edits[0]), edits[1..]);
    }
  }

  /** Whatever edits came before, the amount last set is the amount held. */
  lemma {:induction false} LastAmountWins(t: Transaction, edits: seq<Edit>, a: nat)
    ensures ApplyEdits(t, edits + [EditAmount(a)]).amount == a
    decreases edits
  {
    if edits == [] {
      assert edits + [EditAmount(a)] == [EditAmount(a)];
    } else {
      assert (edits + [EditAmount(a)])[1..] == edits[1..] + [EditAmount(a)];
      LastAmountWins(ApplyEdit(t, edits[0]), edits[1..], a);
    }
  }

  // ---------------------------------------------------------------------
  // Number layouts shared by toString and getFormattedString

  /** %.2f of an amount held in cents: whole units, a point, exactly two digits. */
  function FormatAmount(cents: nat): (r: string)
    ensures |r| >= 4 && r[|r| - 3] == '.'
    ensures AllDigits(r[..|r| - 3]) && AllDigits(r[|r| - 2..])
  {
    var units := NatToString(cents / 100);
    var r := units + "." + PadDigits(cents % 100, 2);
    assert r[..|r| - 3] == units;
    assert r[|r| - 2..] == PadDigits(cents % 100, 2);
    r
  }

  /** The year-of-era that the pattern letter `y` prints: year 0 is 1 BCE. */
  function YearOfEra(year: int): nat
  {
    if year >= 1 then year else 1 - year
  }

  /** The date as the pattern dd-MM-yyyy lays it out. */
  function DisplayDate(d: LocalDate): (r: string)
    ensures |r| == 10 && r[2] == '-' && r[5] == '-'
  {
    PadDigits(d.day, 2) + "-" + PadDigits(d.month, 2) + "-" + PadDigits(YearOfEra(d.year), 4)
  }

  /** getFormattedString: "ID: id | type | category | $amount | description | dd-MM-yyyy". */
  function FormattedString(t: Transaction): (r: string)
    ensures |r| >= 10 && r[|r| - 10..] == DisplayDate(t.date)
  {
    var head := "ID: " + t.id + " | " + t.kind + " | " + t.category + " | $" + FormatAmount(t.amount)
      + " | " + t.description + " | ";
    head + DisplayDate(t.date)
  }

  /**
   * The displayed line starts with the id, shows the amount with two
   * decimals right after the dollar sign, and ends with the date.
   */
  lemma FormattedStringLayout(t: Transaction)
    ensures var s := FormattedString(t);
      |s| >= 10 && s[|s| - 10..] == DisplayDate(t.date)
      && s[..4] == "ID: " && s[4..4 + |t.id|] == t.id
    ensures var s, a := FormattedString(t), FormatAmount(t.amount);
      var k := 4 + |t.id| + 3 + |t.kind| + 3 + |t.category| + 4;
      k + |a| <= |s| && s[k - 1] == '$' && s[k..k + |a|] == a
  {
    var s := FormattedString(t);
    var a := FormatAmount(t.amount);
    var prefix := "ID: " + t.id + " | " + t.kind + " | " + t.category + " | $";
    var tail := " | " + t.description + " | " + DisplayDate(t.date);
    assert s == prefix + a + tail;
    assert s[..4 + |t.id|] == "ID: " + t.id by {
      var p := "ID: " + t.id;
      forall i | 0 <= i < |p| ensures s[i] == p[i] {
        assert s[i] == prefix[i];
      }
    }
    assert s[|prefix| - 1] == '$' by {
      assert s[|prefix| - 1] == prefix[|prefix| - 1];
    }
    assert s[|prefix|..|prefix| + |a|] == a by {
      forall i | 0 <= i < |a| ensures s[|prefix| + i] == a[i] {
        assert s[|prefix| + i] == (prefix + a)[|prefix| + i];
      }
    }
  }
}
