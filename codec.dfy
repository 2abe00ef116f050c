/**
 * The data file's line format. Transaction.toString writes
 * `id,type,category,amount,description,date` with the amount in %.2f and
 * the date as the full-date of section 5.6 of RFC 3339 (yyyy-MM-dd); the
 * loader splits each line on commas, skips lines that do not give six
 * fields, and aborts on an amount or a date it cannot parse.
 */
module Codec {
  import opened Wrappers
  import opened Text
  import opened Ledger

  // ---------------------------------------------------------------------
  // Amounts

  /** The first position of c in s. */
  function IndexOf(s: string, c: char): (i: nat)
    requires c in s
    ensures i < |s| && s[i] == c && c !in s[..i]
  {
    if s[0] == c then 0
    else
      var j := IndexOf(s[1..], c);
      assert s[..1 + j] == [s[0]] + s[1..][..j];
      1 + j
  }

  /**
   * Double.parseDouble on the unsigned decimal numerals of at most two
   * fractional digits ("12", "12.5", "12.50", ".5", "12."), giving cents;
   * any other text is a parse failure.
   */
  function ParseAmount(text: string): (r: Option<nat>)
    ensures r.Some? ==> text != [] && forall i :: 0 <= i < |text| ==> IsDigit(text[i]) || text[i] == '.'
  {
    if '.' in text then
      var p := IndexOf(text, '.');
      var whole := text[..p];
      var frac := text[p + 1..];
      assert text == whole + "." + frac;
      if AllDigits(whole) && AllDigits(frac) && |whole| + |frac| >= 1 && |frac| <= 2
      then Some(DigitsValue(whole) * 100 + DigitsValue(frac) * Pow10(2 - |frac|))
      else None
    else if text != [] && AllDigits(text) then Some(DigitsValue(text) * 100)
    else None
  }

  /** IndexOf finds the first occurrence. */
  lemma {:induction false} IndexOfFirst(s: string, c: char, k: nat)
    requires k < |s| && s[k] == c && c !in s[..k]
    ensures IndexOf(s, c) == k
  {
    if k > 0 {
      assert s[..k][0] == s[0];
      assert s[1..][..k - 1] == s[..k][1..];
      IndexOfFirst(s[1..], c, k - 1);
    }
  }

  lemma DigitsHoldNoPunctuation(s: string)
    requires AllDigits(s)
    ensures '.' !in s && Comma !in s && '-' !in s
  {
    assert forall i :: 0 <= i < |s| ==> s[i] != '.' && s[i] != Comma && s[i] != '-';
  }

  /** The %.2f text of an amount parses back to the same number of cents. */
  lemma ParseFormatAmount(cents: nat)
    ensures ParseAmount(FormatAmount(cents)) == Some(cents)
  {
    var units := NatToString(cents / 100);
    var pad := PadDigits(cents % 100, 2);
    var r := FormatAmount(cents);
    assert r == units + "." + pad;
    assert r[..|units|] == units;
    DigitsHoldNoPunctuation(units);
    IndexOfFirst(r, '.', |units|);
    assert r[|units| + 1..] == pad;
    NatToStringRoundTrip(cents / 100);
    PadDigitsRoundTrip(cents % 100, 2);
  }

  // ---------------------------------------------------------------------
  // Dates

  /** LocalDate.toString for a four-digit year: yyyy-MM-dd. */
  function FormatDate(d: LocalDate): (r: string)
    ensures |r| == 10 && r[4] == '-' && r[7] == '-'
    ensures AllDigits(r[..4]) && AllDigits(r[5..7]) && AllDigits(r[8..])
  {
    var r := PadDigits(d.year, 4) + "-" + PadDigits(d.month, 2) + "-" + PadDigits(d.day, 2);
    assert r[..4] == PadDigits(d.year, 4);
    assert r[5..7] == PadDigits(d.month, 2);
    assert r[8..] == PadDigits(d.day, 2);
    r
  }

  /**
   * LocalDate.parse: exactly yyyy-MM-dd, and the fields must name a real
   * day (month 1 to 12, day within the month, leap years counted).
   */
  function ParseDate(text: string): (r: Option<LocalDate>)
    ensures r.Some? ==> |text| == 10 && Comma !in text
  {
    if |text| == 10 && text[4] == '-' && text[7] == '-'
       && AllDigits(text[..4]) && AllDigits(text[5..7]) && AllDigits(text[8..])
    then
      var d := Date(DigitsValue(text[..4]), DigitsValue(text[5..7]), DigitsValue(text[8..]));
      if ValidDate(d) then Some(d) else None
    else None
  }

  /** The written date parses back to the same date. */
  lemma ParseFormatDate(d: LocalDate)
    ensures ParseDate(FormatDate(d)) == Some(d)
  {
    var r := FormatDate(d);
    assert r[..4] == PadDigits(d.year, 4);
    assert r[5..7] == PadDigits(d.month, 2);
    assert r[8..] == PadDigits(d.day, 2);
    PadDigitsRoundTrip(d.year, 4);
    PadDigitsRoundTrip(d.month, 2);
    PadDigitsRoundTrip(d.day, 2);
  }

  /** Any fixed-width field of digits is the padded numeral of its value. */
  lemma {:induction false} PadDigitsOfValue(s: string)
    requires AllDigits(s)
    ensures PadDigits(DigitsValue(s), |s|) == s
  {
    if s != [] {
      var init := s[..|s| - 1];
      PadDigitsOfValue(init);
      var v := DigitsValue(s);
      assert v / 10 == DigitsValue(init);
      assert v % 10 == DigitValue(s[|s| - 1]);
      assert s == init + [s[|s| - 1]];
    }
  }

  /** Only the canonical text parses: a parsed date is written back exactly as read. */
  lemma ParseDateCanonical(text: string, d: LocalDate)
    requires ParseDate(text) == Some(d)
    ensures FormatDate(d) == text
  {
    PadDigitsOfValue(text[..4]);
    PadDigitsOfValue(text[5..7]);
    PadDigitsOfValue(text[8..]);
    assert text == text[..4] + "-" + text[5..7] + "-" + text[8..];
  }

  /** The display pattern dd-MM-yyyy lists the file's yyyy-MM-dd fields in reverse order. */
  lemma DisplayDateReordersFileDate(d: LocalDate)
    ensures var iso := FormatDate(d);
      DisplayDate(d)[..6] == iso[8..] + "-" + iso[5..7] + "-"
      && (d.year >= 1 ==> DisplayDate(d)[6..] == iso[..4])
      && (d.year == 0 ==> DisplayDate(d)[6..] == "0001")
  {
    var iso := FormatDate(d);
    assert iso[..4] == PadDigits(d.year, 4);
    assert iso[5..7] == PadDigits(d.month, 2);
    assert iso[8..] == PadDigits(d.day, 2);
    var disp := DisplayDate(d);
    assert disp[..6] == PadDigits(d.day, 2) + "-" + PadDigits(d.month, 2) + "-";
    assert disp[6..] == PadDigits(YearOfEra(d.year), 4);
  }

  // ---------------------------------------------------------------------
  // Lines

  /** Transaction.toString: the six fields joined by commas. */
  function Encode(t: Transaction): (r: string)
    ensures CommaCount(r) == 5 + CommaCount(t.id) + CommaCount(t.kind)
      + CommaCount(t.category) + CommaCount(t.description)
  {
    var date := FormatDate(t.date);
    var head := t.id + "," + t.kind + "," + t.category + "," + FormatAmount(t.amount) + ","
      + t.description + ",";
    SeparatorCount(t, head);
    head + date
  }

  /** The five separators, plus the commas inside the text fields, before the date. */
  lemma SeparatorCount(t: Transaction, head: string)
    requires head == t.id + "," + t.kind + "," + t.category + "," + FormatAmount(t.amount) + ","
      + t.description + ","
    ensures CommaCount(head + FormatDate(t.date)) == 5 + CommaCount(t.id) + CommaCount(t.kind)
      + CommaCount(t.category) + CommaCount(t.description)
  {
    var date := FormatDate(t.date);
    NoCommaInNumerals(t);
    CommaCountZero(FormatAmount(t.amount));
    CommaCountZero(date);
    assert CommaCount(",") == 1;
    CommaCountAppend(t.id, ",");
    CommaCountAppend(t.id + ",", t.kind);
    CommaCountAppend(t.id + "," + t.kind, ",");
    CommaCountAppend(t.id + "," + t.kind + ",", t.category);
    CommaCountAppend(t.id + "," + t.kind + "," + t.category, ",");
    CommaCountAppend(t.id + "," + t.kind + "," + t.category + ",", FormatAmount(t.amount));
    CommaCountAppend(t.id + "," + t.kind + "," + t.category + "," + FormatAmount(t.amount), ",");
    CommaCountAppend(t.id + "," + t.kind + "," + t.category + "," + FormatAmount(t.amount) + ",", t.description);
    CommaCountAppend(t.id + "," + t.kind + "," + t.category + "," + FormatAmount(t.amount) + "," + t.description, ",");
    CommaCountAppend(head, date);
  }

  /** The six fields in file order. */
  function Fields(t: Transaction): seq<string>
  {
    [t.id, t.kind, t.category, FormatAmount(t.amount), t.description, FormatDate(t.date)]
  }

  /** The text fields that toString writes as they are, with no escaping. */
  predicate CommaFree(t: Transaction)
  {
    Comma !in t.id && Comma !in t.kind && Comma !in t.category && Comma !in t.description
  }

  datatype LoadError = BadAmount(amountText: string) | BadDate(dateText: string)

  datatype LineOutcome = Skipped | Parsed(t: Transaction) | Failed(error: LoadError)

  /**
   * One iteration of the loader's loop: split on commas; a line that does
   * not give six fields is skipped; otherwise the amount is parsed, then the
   * date, and the first that fails aborts the load.
   */
  function ParseLine(line: string): (r: LineOutcome)
    ensures r.Skipped? <==> |Split(line)| != 6
    ensures r.Parsed? ==> CommaFree(r.t)
  {
    var parts := Split(line);
    if |parts| != 6 then Skipped
    else
      match ParseAmount(parts[3])
      case None => Failed(BadAmount(parts[3]))
      case Some(amount) =>
        match ParseDate(parts[5])
        case None => Failed(BadDate(parts[5]))
        case Some(date) => Parsed(Transaction(parts[0], parts[1], parts[2], amount, parts[4], date))
  }

  lemma EncodeIsJoin(t: Transaction)
    ensures Encode(t) == Join(Fields(t))
  {
    var f1 := [t.id];
    var f2 := f1 + [t.kind];
    var f3 := f2 + [t.category];
    var f4 := f3 + [FormatAmount(t.amount)];
    var f5 := f4 + [t.description];
    assert Fields(t) == f5 + [FormatDate(t.date)];
    JoinSnoc(f1, t.kind);
    JoinSnoc(f2, t.category);
    JoinSnoc(f3, FormatAmount(t.amount));
    JoinSnoc(f4, t.description);
    JoinSnoc(f5, FormatDate(t.date));
  }

  lemma NoCommaInNumerals(t: Transaction)
    ensures Comma !in FormatAmount(t.amount) && Comma !in FormatDate(t.date)
  {
    var a := FormatAmount(t.amount);
    var d := FormatDate(t.date);
    assert a == a[..|a| - 3] + "." + a[|a| - 2..];
    assert d == d[..4] + "-" + d[5..7] + "-" + d[8..];
    DigitsHoldNoPunctuation(a[..|a| - 3]);
    DigitsHoldNoPunctuation(a[|a| - 2..]);
    DigitsHoldNoPunctuation(d[..4]);
    DigitsHoldNoPunctuation(d[5..7]);
    DigitsHoldNoPunctuation(d[8..]);
  }

  /** Split of a written line: the pieces between its commas, none dropped. */
  lemma SplitEncode(t: Transaction)
    ensures Split(Encode(t)) == SplitAll(Encode(t))
    ensures |Split(Encode(t))| == 6 + CommaCount(t.id) + CommaCount(t.kind)
      + CommaCount(t.category) + CommaCount(t.description)
  {
    var line := Encode(t);
    var date := FormatDate(t.date);
    var head := t.id + "," + t.kind + "," + t.category + "," + FormatAmount(t.amount) + ","
      + t.description + ",";
    assert line == head + date;
    assert line[|line| - 1] == date[9];
    SplitKeepsAllPieces(line);
    SplitAllCount(line);
  }

  /**
   * A written line reads back as the same transaction exactly when its
   * text fields hold no comma; otherwise the field count is not six and
   * the loader skips the line.
   */
  lemma EncodeRoundTrip(t: Transaction)
    ensures ParseLine(Encode(t)) == Parsed(t) <==> CommaFree(t)
    ensures ParseLine(Encode(t)) == Skipped <==> !CommaFree(t)
  {
    SplitEncode(t);
    CommaCountZero(t.id);
    CommaCountZero(t.kind);
    CommaCountZero(t.category);
    CommaCountZero(t.description);
    if CommaFree(t) {
      EncodeIsJoin(t);
      NoCommaInNumerals(t);
      var f := Fields(t);
      assert forall i :: 0 <= i < |f| ==> Comma !in f[i];
      SplitAllJoin(f);
      ParseFormatAmount(t.amount);
      ParseFormatDate(t.date);
    }
  }

  // ---------------------------------------------------------------------
  // Files

  /** The load result of the lines still to read, after `loaded` have been kept. */
  function Prepend(loaded: seq<Transaction>, rest: Result<seq<Transaction>, LoadError>): Result<seq<Transaction>, LoadError>
  {
    match rest
    case Ok(ts) => Ok(loaded + ts)
    case Err(e) => Err(e)
  }

  /** loadTransactions over the file's lines: keep parsed lines in order, stop at the first failure. */
  function Load(lines: seq<string>): (r: Result<seq<Transaction>, LoadError>)
    ensures r.Ok? ==> |r.value| <= |lines|
    ensures r.Ok? ==> forall i :: 0 <= i < |r.value| ==> CommaFree(r.value[i])
  {
    if lines == [] then Ok([])
    else
      match ParseLine(lines[0])
      case Skipped => Load(lines[1..])
      case Failed(e) => Err(e)
      case Parsed(t) => Prepend([t], Load(lines[1..]))
  }

  /** saveTransactions: one toString line per transaction, in list order. */
  function Save(ts: seq<Transaction>): (lines: seq<string>)
    ensures |lines| == |ts|
  {
    seq(|ts|, i requires 0 <= i < |ts| => Encode(ts[i]))
  }

  /** The number of lines that split into exactly six fields. */
  function SixFieldCount(lines: seq<string>): nat
  {
    if lines == [] then 0 else (if |Split(lines[0])| == 6 then 1 else 0) + SixFieldCount(lines[1..])
  }

  /**
   * Loading what was saved gives the same list back when no text field
   * holds a comma.
   */
  lemma {:induction false} LoadSaveRoundTrip(ts: seq<Transaction>)
    requires forall i :: 0 <= i < |ts| ==> CommaFree(ts[i])
    ensures Load(Save(ts)) == Ok(ts)
  {
    if ts != [] {
      var lines := Save(ts);
      assert lines[1..] == Save(ts[1..]);
      EncodeRoundTrip(ts[0]);
      LoadSaveRoundTrip(ts[1..]);
      assert ts == [ts[0]] + ts[1..];
    }
  }

  /**
   * Saving a loaded list and loading the file again gives the same list:
   * every loaded transaction is comma-free, so its line reads back as it is.
   */
  lemma ReloadIsStable(lines: seq<string>)
    requires Load(lines).Ok?
    ensures Load(Save(Load(lines).value)) == Load(lines)
  {
    LoadSaveRoundTrip(Load(lines).value);
  }

  /** No line of the file has an amount or a date that fails to parse. */
  predicate NoFailure(lines: seq<string>)
  {
    forall i :: 0 <= i < |lines| ==> !ParseLine(lines[i]).Failed?
  }

  /** Line i is the first line that fails to parse, with error e. */
  predicate FirstFailure(lines: seq<string>, i: int, e: LoadError)
  {
    && 0 <= i < |lines|
    && ParseLine(lines[i]) == Failed(e)
    && forall j :: 0 <= j < i ==> !ParseLine(lines[j]).Failed?
  }

  /** A load succeeds iff no line fails to parse. */
  lemma {:induction false} LoadOkIff(lines: seq<string>)
    ensures Load(lines).Ok? <==> NoFailure(lines)
  {
    if lines != [] {
      LoadOkIff(lines[1..]);
      if NoFailure(lines[1..]) && !ParseLine(lines[0]).Failed? {
        forall i | 0 <= i < |lines| ensures !ParseLine(lines[i]).Failed? {
          if i > 0 { assert lines[i] == lines[1..][i - 1]; }
        }
      }
      if NoFailure(lines) {
        forall i | 0 <= i < |lines[1..]| ensures !ParseLine(lines[1..][i]).Failed? {
          assert lines[1..][i] == lines[i + 1];
        }
      }
    }
  }

  /** A successful load keeps one transaction per six-field line. */
  lemma {:induction false} LoadCount(lines: seq<string>)
    ensures Load(lines).Ok? ==> |Load(lines).value| == SixFieldCount(lines)
  {
    if lines != [] {
      LoadCount(lines[1..]);
    }
  }

  /** A failed load carries the error of the first line that fails to parse. */
  lemma {:induction false} LoadFailsAtFirst(lines: seq<string>)
    ensures Load(lines).Err? ==> exists i :: FirstFailure(lines, i, Load(lines).error)
  {
    if lines != [] && Load(lines).Err? {
      if ParseLine(lines[0]).Failed? {
        assert FirstFailure(lines, 0, Load(lines).error);
      } else {
        LoadFailsAtFirst(lines[1..]);
        var i :| FirstFailure(lines[1..], i, Load(lines).error);
        assert lines[i + 1] == lines[1..][i];
        forall j | 0 <= j < i + 1 ensures !ParseLine(lines[j]).Failed? {
          if j > 0 { assert lines[j] == lines[1..][j - 1]; }
        }
        assert FirstFailure(lines, i + 1, Load(lines).error);
      }
    }
  }

  /**
   * Loading a file in two parts: a failure in the first part stops the
   * load; otherwise the kept transactions of both parts, in file order.
   */
  lemma {:induction false} LoadAppend(a: seq<string>, b: seq<string>)
    ensures Load(a).Err? ==> Load(a + b) == Load(a)
    ensures Load(a).Ok? ==> Load(a + b) == Prepend(Load(a).value, Load(b))
  {
    if a == [] {
      assert a + b == b;
      match Load(b) {
        case Ok(ts) => assert [] + ts == ts;
        case Err(e) =>
      }
    } else {
      assert (a + b)[0] == a[0];
      assert (a + b)[1..] == a[1..] + b;
      LoadAppend(a[1..], b);
      match ParseLine(a[0]) {
        case Skipped =>
        case Failed(e) =>
        case Parsed(t) =>
          if Load(a[1..]).Ok? && Load(b).Ok? {
            AppendAssoc([t], Load(a[1..]).value, Load(b).value);
          }
      }
    }
  }

  // ---------------------------------------------------------------------
  // The loader's and the saver's loops

  /** The loop of loadTransactions: read line by line, append each parsed line, abort on a parse failure. */
  method LoadLines(lines: seq<string>) returns (r: Result<seq<Transaction>, LoadError>)
    ensures r == Load(lines)
  {
    var loaded: seq<Transaction> := [];
    var i := 0;
    assert lines[i..] == lines;
    match Load(lines) {
      case Ok(ts) => assert loaded + ts == ts;
      case Err(e) =>
    }
    while i < |lines|
      invariant 0 <= i <= |lines|
      invariant Load(lines) == Prepend(loaded, Load(lines[i..]))
    {
      assert lines[i..][0] == lines[i] && lines[i..][1..] == lines[i + 1..];
      var parts := Split(lines[i]);
      if |parts| == 6 {
        var amount := ParseAmount(parts[3]);
        if amount.None? {
          return Err(BadAmount(parts[3]));
        }
        var date := ParseDate(parts[5]);
        if date.None? {
          return Err(BadDate(parts[5]));
        }
        var t := Transaction(parts[0], parts[1], parts[2], amount.value, parts[4], date.value);
        match Load(lines[i + 1..]) {
          case Ok(ts) => assert loaded + ([t] + ts) == (loaded + [t]) + ts;
          case Err(e) =>
        }
        loaded := loaded + [t];
      }
      i := i + 1;
    }
    assert lines[i..] == [];
    assert loaded + [] == loaded;
    return Ok(loaded);
  }

  /** The loop of saveTransactions: the lines written, one per transaction. */
  method RenderLines(ts: seq<Transaction>) returns (lines: seq<string>)
    ensures |lines| == |ts|
    ensures forall i :: 0 <= i < |ts| ==> lines[i] == Encode(ts[i])
  {
    lines := [];
    for i := 0 to |ts|
      invariant |lines| == i
      invariant forall j :: 0 <= j < i ==> lines[j] == Encode(ts[j])
    {
      lines := lines + [Encode(ts[i])];
    }
  }
}
