/**
 * The FinanceTracker store: the list of transactions in insertion order,
 * the next id to hand out, and the data file, seen as its list of lines
 * (None when the file does not exist). Opening loads the file; adding and
 * deleting rewrite it.
 */
module Store {
  import opened Wrappers
  import opened Text
  import opened Ledger
  import opened Codec
  import opened Queries

  const IncomeCategories: seq<string> := ["Salary", "Freelance", "Investment", "Gift", "Other Income"]

  const ExpenseCategories: seq<string> :=
    ["Food", "Transportation", "Housing", "Utilities", "Entertainment",
     "Healthcare", "Shopping", "Education", "Other Expense"]

  /**
   * getCategories: the income list for exactly "INCOME", the expense list
   * for any other type. The two lists share no name and repeat none, so a
   * menu position picks exactly one category, and that category tells the
   * type apart; no name holds a comma, so a chosen category is written to
   * the file without splitting the line.
   */
  function CategoriesFor(kind: string): (r: seq<string>)
    ensures forall i, j :: 0 <= i < j < |r| ==> r[i] != r[j]
    ensures forall c :: c in r ==> (c in IncomeCategories <==> kind == Income)
    ensures forall c :: c in r ==> (c in ExpenseCategories <==> kind != Income)
    ensures forall i :: 0 <= i < |r| ==> Comma !in r[i]
  {
    if kind == Income then IncomeCategories else ExpenseCategories
  }

  class FinanceTracker {
    var transactions: seq<Transaction>
    var nextId: nat
    var dataFile: Option<seq<string>>

    /** The constructor's last step: the loaded list and nextId = size + 1. */
    constructor FromLoaded(loaded: seq<Transaction>, file: Option<seq<string>>)
      ensures transactions == loaded && nextId == |loaded| + 1 && dataFile == file
    {
      transactions := loaded;
      nextId := |loaded| + 1;
      dataFile := file;
    }

    /**
     * new FinanceTracker(): no file gives an empty store; otherwise the
     * file is loaded line by line, and a line whose amount or date does not
     * parse makes the construction fail.
     */
    static method Open(file: Option<seq<string>>) returns (r: Result<FinanceTracker, LoadError>)
      ensures file.None? ==> r.Ok? && r.value.transactions == []
      ensures file.Some? ==> (r.Ok? <==> Load(file.value).Ok?)
      ensures file.Some? && r.Ok? ==> r.value.transactions == Load(file.value).value
      ensures file.Some? && r.Err? ==> r.error == Load(file.value).error
      ensures r.Ok? ==> fresh(r.value)
      ensures r.Ok? ==> r.value.nextId == |r.value.transactions| + 1 && r.value.dataFile == file
    {
      var loaded: seq<Transaction> := [];
      if file.Some? {
        var outcome := LoadLines(file.value);
        if outcome.Err? {
          return Err(outcome.error);
        }
        loaded := outcome.value;
      }
      var tracker := new FinanceTracker.FromLoaded(loaded, file);
      return Ok(tracker);
    }

    /** saveTransactions: the file becomes one line per transaction, in list order. */
    method SaveTransactions()
      modifies this
      ensures dataFile == Some(Save(transactions))
      ensures transactions == old(transactions) && nextId == old(nextId)
    {
      var lines := RenderLines(transactions);
      assert lines == Save(transactions);
      dataFile := Some(lines);
    }

    /**
     * addTransaction: appends one transaction dated today whose id is the
     * numeral of the counter, advances the counter and saves.
     */
    method AddTransaction(kind: string, category: string, amount: nat, description: string, today: LocalDate)
      modifies this
      ensures transactions
        == old(transactions) + [Transaction(NatToString(old(nextId)), kind, category, amount, description, today)]
      ensures nextId == old(nextId) + 1
      ensures dataFile == Some(Save(transactions))
    {
      var id := NatToString(nextId);
      nextId := nextId + 1;
      transactions := transactions + [Transaction(id, kind, category, amount, description, today)];
      SaveTransactions();
    }

    /**
     * deleteTransaction: removes every transaction with the id, keeping the
     * others in order; saves only when something was removed.
     */
    method DeleteTransaction(id: string) returns (removed: bool)
      modifies this
      ensures transactions == RemoveId(old(transactions), id)
      ensures removed <==> exists t :: t in old(transactions) && t.id == id
      ensures removed ==> dataFile == Some(Save(transactions))
      ensures !removed ==> transactions == old(transactions) && dataFile == old(dataFile)
      ensures nextId == old(nextId)
    {
      var before := transactions;
      RemoveIdCount(before, id);
      transactions := RemoveId(before, id);
      removed := |transactions| < |before|;
      if removed {
        SaveTransactions();
      } else {
        FilterKeepsAll(before, HasOtherId(id));
      }
    }
  }

  /**
   * Seeding the counter with size + 1 on reload can hand out an id that is
   * still in use: after "1" and "2" are added and "1" is deleted, the file
   * holds the transaction "2", and reopening it sets the counter to 2.
   */
  lemma ReloadReissuesLiveId(t: Transaction)
    requires t.id == "2" && CommaFree(t)
    ensures Load(Save([t])) == Ok([t])
    ensures NatToString(|Load(Save([t])).value| + 1) == t.id
  {
    LoadSaveRoundTrip([t]);
    assert NatToString(2) == "2";
  }

  /**
   * The same collision for any saved list: when a transaction's id is the
   * numeral of size + 1, reopening the file seeds the counter so that the
   * next id handed out is that live id.
   */
  lemma ReloadReissuesAnyLiveId(ts: seq<Transaction>, i: int)
    requires forall j :: 0 <= j < |ts| ==> CommaFree(ts[j])
    requires 0 <= i < |ts| && ts[i].id == NatToString(|ts| + 1)
    ensures Load(Save(ts)) == Ok(ts)
    ensures NatToString(|Load(Save(ts)).value| + 1) == ts[i].id
  {
    LoadSaveRoundTrip(ts);
  }
}
