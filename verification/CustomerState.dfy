/** The customer service object. `saved` is the outcome of the write-and-rename that ends an operation. */
module CustomerState {
  import opened Prelude
  import L = LedgerSpec
  import Text

  class Account {
    var data: L.Customer
    ghost const id: string

    constructor (ghost id: string, data: L.Customer)
      ensures this.id == id && this.data == data
    {
      this.id, this.data := id, data;
    }

    method Update(input: L.Upsert, now: int)
      modifies this
      ensures data == L.Updated(old(data), input, now)
    {
      if Text.TrimSpace(input.email) != "" { data := data.(email := Text.TrimSpace(input.email)); }
      if Text.TrimSpace(input.displayName) != "" { data := data.(displayName := Text.TrimSpace(input.displayName)); }
      if input.emailVerified.Some? { data := data.(emailVerified := input.emailVerified.value); }
      if input.active.Some? { data := data.(active := input.active.value); }
      data := data.(updatedAt := now);
    }
  }

  class Service {
    var customers: map<string, Account>
    var ledger: seq<L.Entry>
    ghost var file: L.Store                 // what the state file holds
    ghost var opening: map<string, int>     // initial credits, which the ledger does not record

    constructor ()
      ensures Valid() && View() == L.Sys(L.EMPTY, L.EMPTY)
    {
      customers, ledger, file, opening := map[], [], L.EMPTY, map[];
    }

    ghost predicate Valid()
      reads this`customers, customers.Values
    {
      forall id :: id in customers ==> customers[id].id == id
    }

    ghost function Accounts(): map<string, L.Customer>
      reads this`customers, customers.Values
    {
      map id | id in customers :: customers[id].data
    }

    ghost function Memory(): L.Store
      reads this`customers, this`ledger, this`opening, customers.Values
    {
      L.Store(Accounts(), ledger, opening)
    }

    ghost function View(): L.Sys
      reads this, customers.Values
    {
      L.Sys(Memory(), file)
    }

    /** persistLocked: the file is replaced as a whole or not at all. */
    method Persist(saved: bool)
      modifies this`file
      ensures file == if saved then Memory() else old(file)
    {
      if saved { file := Memory(); }
    }

    method UpsertCustomer(input: L.Upsert, now: int, saved: bool) returns (r: Result<L.Customer, L.Failure>)
      requires Valid()
      modifies this, customers.Values
      ensures Valid() && fresh(customers.Values - old(customers.Values))
      ensures View() == L.Step(old(View()), L.DoUpsert(input, now, saved))
      ensures var id := Text.TrimSpace(input.id);
        r == if id == "" then Err(L.CustomerNotFound)
             else if !saved then Err(L.PersistFailed)
             else Ok(Memory().customers[id])
    {
      var id := Text.TrimSpace(input.id);
      if id == "" { return Err(L.CustomerNotFound); }
      UpsertInMemory(input, id, now);
      Persist(saved);
      r := if saved then Ok(customers[id].data) else Err(L.PersistFailed);
    }

    method UpsertInMemory(input: L.Upsert, id: string, now: int)
      requires Valid() && id == Text.TrimSpace(input.id) && id != ""
      modifies this`customers, this`opening, customers.Values
      ensures Valid() && fresh(customers.Values - old(customers.Values)) && id in customers
      ensures Memory() == L.Upserted(old(Memory()), input, now)
    {
      hide L.Wrap, Text.TrimSpace;
      if id !in customers {
        var credits := L.Wrap(L.Or(input.initialCredits, 0));
        var account := new Account(id, L.NewCustomer(input, credits, now));
        customers := customers[id := account];
        opening := opening[id := credits];
        assert Accounts() == old(Accounts())[id := account.data];
      } else {
        var account := customers[id];
        account.Update(input, now);
        assert Accounts() == old(Accounts())[id := account.data];
      }
    }

    /** TopUpCredits, DeductCredits and RecordUsageDebit. */
    method Charge(c: L.Charge, now: int, saved: bool) returns (r: Result<(L.Customer, L.Entry), L.Failure>)
      requires Valid()
      modifies this`ledger, this`file, customers.Values
      ensures Valid()
      ensures View() == L.Step(old(View()), L.DoCharge(c, now, saved))
      ensures var id := Text.TrimSpace(c.id);
        match L.Refusal(old(Memory()), c)
        case Some(f) => r == Err(f)
        case None =>
          if L.Recorded(old(ledger), c) then
            r == Ok((old(customers)[id].data, ledger[L.FirstDebit(old(ledger), id, Text.TrimSpace(c.requestID))]))
          else if saved then
            r == Ok((customers[id].data, L.EntryFor(c, customers[id].data.balance, now)))
          else r == Err(L.PersistFailed)
    {
      hide L.Wrap, L.FirstDebit, L.EntryFor, L.Charged, Text.TrimSpace;
      if c.amount <= 0 { return Err(L.InvalidAmount); }
      var id := Text.TrimSpace(c.id);
      if id == "" { return Err(L.CustomerNotFound); }
      if id !in customers { return Err(L.CustomerNotFound); }
      if c.ChargeUsage? {
        var requestID := Text.TrimSpace(c.requestID);
        var found := FindDebit(id, requestID);
        if found < |ledger| {
          return Ok((customers[id].data, ledger[found]));
        }
      }
      r := BookAndSave(c, id, now, saved);
    }

    /** A charge that is neither refused nor already recorded: booked in memory, then saved or not. */
    method BookAndSave(c: L.Charge, id: string, now: int, saved: bool)
      returns (r: Result<(L.Customer, L.Entry), L.Failure>)
      requires Valid() && id == Text.TrimSpace(c.id) && L.Refusal(Memory(), c).None? && !L.Recorded(ledger, c)
      modifies this`ledger, this`file, customers.Values
      ensures Valid() && View() == L.Step(old(View()), L.DoCharge(c, now, saved))
      ensures r ==
        if saved then Ok((customers[id].data, L.EntryFor(c, customers[id].data.balance, now)))
        else Err(L.PersistFailed)
    {
      hide L.Charged, L.Recorded, L.EntryFor, Text.TrimSpace;
      var entry := Book(c, id, now);
      Persist(saved);
      r := if saved then Ok((customers[id].data, entry)) else Err(L.PersistFailed);
    }

    /** The scan for a debit already recorded; a blank request id is never looked up. */
    method FindDebit(id: string, requestID: string) returns (n: nat)
      ensures n == L.FirstDebit(ledger, id, requestID)
    {
      if requestID == "" {
        n := |ledger|;
        NeverBlank(ledger, id);
        return;
      }
      n := 0;
      while n < |ledger| && !L.IsDebitOf(ledger[n], id, requestID)
        invariant n <= |ledger|
        invariant L.FirstDebit(ledger, id, requestID) == n + L.FirstDebit(ledger[n..], id, requestID)
      {
        assert ledger[n..][1..] == ledger[n + 1..];
        n := n + 1;
      }
    }

    /** Balance, time stamp and ledger entry, in memory. */
    method Book(c: L.Charge, id: string, now: int) returns (entry: L.Entry)
      requires Valid() && id == Text.TrimSpace(c.id) && L.Refusal(Memory(), c).None? && !L.Recorded(ledger, c)
      modifies this`ledger, customers.Values
      ensures Valid() && Memory() == L.Charged(old(Memory()), c, now)
      ensures entry == L.EntryFor(c, customers[id].data.balance, now)
    {
      hide L.Wrap, Text.TrimSpace;
      var account := customers[id];
      var balance := L.Wrap(account.data.balance + L.Delta(c));
      account.data := account.data.(balance := balance, updatedAt := now);
      entry := L.EntryFor(c, balance, now);
      ledger := ledger + [entry];
      assert Accounts() == old(Accounts())[id := account.data];
    }
  }

  lemma {:induction false} NeverBlank(ledger: seq<L.Entry>, id: string)
    ensures L.FirstDebit(ledger, id, "") == |ledger|
  {
    if ledger != [] { NeverBlank(ledger[1..], id); }
  }
}
