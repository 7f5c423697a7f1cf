/** revenue_manager.py: an append-only ledger of sales kept as a JSON list
    in one file. The file is the field `file`: `None` while it does not
    exist, otherwise the list it holds. The clock readings an entry records
    are parameters. */
module Revenue {
  import opened Json
  import opened Clock

  const DefaultCurrency := "USD"
  const DefaultSource := "market"

  /** The nine keys of an entry. */
  const SaleKeys: set<string> :=
    {"ts", "epoch", "amount", "currency", "source", "tx_id", "buyer", "cid", "notes"}

  /** A JSON value that is a string or `null`, as an optional argument becomes. */
  predicate IsOptionalString(v: Value) {
    v.Null? || v.Str?
  }

  /** The shape of an entry `record_sale` writes: exactly the nine keys, a
      timestamp ending in `Z`, two numbers, two strings and four optional
      strings. */
  predicate IsSale(v: Value) {
    && v.Obj?
    && v.fields.Keys == SaleKeys
    && v.fields["ts"].Str? && |v.fields["ts"].s| > 0 && v.fields["ts"].s[|v.fields["ts"].s| - 1] == 'Z'
    && v.fields["epoch"].Num? && v.fields["amount"].Num?
    && v.fields["currency"].Str? && v.fields["source"].Str?
    && IsOptionalString(v.fields["tx_id"]) && IsOptionalString(v.fields["buyer"])
    && IsOptionalString(v.fields["cid"]) && IsOptionalString(v.fields["notes"])
  }

  predicate AllSales(entries: seq<Value>) {
    forall k :: 0 <= k < |entries| ==> IsSale(entries[k])
  }

  /** The entry dictionary of `record_sale`, written at clock reading `now`
      (`utcnow()`) and `epoch` (`time.time()`). */
  function SaleEntry(amount: real, now: Instant, epoch: real, currency: string, source: string,
                     txId: Option<string>, buyer: Option<string>, cid: Option<string>,
                     notes: Option<string>): (entry: map<string, Value>)
    ensures IsSale(Obj(entry))
    ensures entry["ts"] == Str(Isoformat(now) + "Z")
    ensures entry["amount"] == Num(amount) && entry["epoch"] == Num(epoch)
    ensures entry["currency"] == Str(currency) && entry["source"] == Str(source)
    ensures (entry["tx_id"] == Null <==> txId.None?) && (txId.Some? ==> entry["tx_id"] == Str(txId.value))
    ensures (entry["buyer"] == Null <==> buyer.None?) && (buyer.Some? ==> entry["buyer"] == Str(buyer.value))
    ensures (entry["cid"] == Null <==> cid.None?) && (cid.Some? ==> entry["cid"] == Str(cid.value))
    ensures (entry["notes"] == Null <==> notes.None?) && (notes.Some? ==> entry["notes"] == Str(notes.value))
  {
    map["ts" := Str(Isoformat(now) + "Z"), "epoch" := Num(epoch), "amount" := Num(amount),
        "currency" := Str(currency), "source" := Str(source),
        "tx_id" := OptionalString(txId), "buyer" := OptionalString(buyer),
        "cid" := OptionalString(cid), "notes" := OptionalString(notes)]
  }

  /** The ledger file. */
  class Ledger {
    /** `None` while the file does not exist; otherwise the JSON list it holds. */
    var file: Option<seq<Value>>

    constructor(existing: Option<seq<Value>>)
      ensures file == existing
    {
      file := existing;
    }

    /** What `json.load` gives once the ledger exists: an absent file
        becomes the empty list. */
    function Entries(): seq<Value>
      reads this
    {
      if file.None? then [] else file.value
    }

    /** `ensure_ledger()`: create an empty ledger only when there is none;
        an existing one is left as it is. */
    method EnsureLedger()
      modifies this
      ensures old(file).None? ==> file == Some([])
      ensures old(file).Some? ==> file == old(file)
      ensures file == Some(old(Entries()))
    {
      if file.None? {
        file := Some([]);
      }
    }

    /** `record_sale(...)`: the ledger becomes its old entries followed by
        exactly the returned entry. */
    method RecordSale(amount: real, now: Instant, epoch: real,
                      currency: string := DefaultCurrency, source: string := DefaultSource,
                      txId: Option<string> := None, buyer: Option<string> := None,
                      cid: Option<string> := None, notes: Option<string> := None)
      returns (entry: map<string, Value>)
      modifies this
      ensures entry == SaleEntry(amount, now, epoch, currency, source, txId, buyer, cid, notes)
      ensures file == Some(old(Entries()) + [Obj(entry)])
      ensures file == Some(AfterSales(old(Entries()), [entry]))
      ensures |Entries()| == |old(Entries())| + 1
      ensures Entries()[..|old(Entries())|] == old(Entries())
      ensures Entries()[|Entries()| - 1] == Obj(entry)
      ensures AllSales(old(Entries())) ==> AllSales(Entries())
    {
      EnsureLedger();
      entry := SaleEntry(amount, now, epoch, currency, source, txId, buyer, cid, notes);
      var ledger := file.value;
      ledger := ledger + [Obj(entry)];
      file := Some(ledger);
      assert Entries()[..|ledger| - 1] == old(Entries());
    }

    /** `show_ledger()`: the current entries, creating an empty ledger if
        none existed; nothing else changes. */
    method ShowLedger() returns (entries: seq<Value>)
      modifies this
      ensures entries == old(Entries())
      ensures old(file).None? ==> entries == []
      ensures file == Some(entries)
    {
      EnsureLedger();
      entries := file.value;
    }
  }

  /** The ledger after recording `sales` one after another, starting from
      `entries`: each call appends its entry to the end. */
  function AfterSales(entries: seq<Value>, sales: seq<map<string, Value>>): (r: seq<Value>)
    ensures |r| == |entries| + |sales|
    decreases |sales|
  {
    if sales == [] then entries else AfterSales(entries + [Obj(sales[0])], sales[1..])
  }

  /** Recording never rewrites history: whatever is recorded afterwards,
      the earlier entries stay first and in order, and the new ones follow
      in the order they were recorded. */
  lemma {:induction false} AfterSalesAppendOnly(entries: seq<Value>, sales: seq<map<string, Value>>)
    ensures AfterSales(entries, sales)[..|entries|] == entries
    ensures forall k :: 0 <= k < |sales| ==> AfterSales(entries, sales)[|entries| + k] == Obj(sales[k])
    decreases |sales|
  {
    if sales != [] {
      var next := entries + [Obj(sales[0])];
      AfterSalesAppendOnly(next, sales[1..]);
      var r := AfterSales(entries, sales);
      assert r == AfterSales(next, sales[1..]);
      assert r[..|entries|] == next[..|next|][..|entries|];
      forall k | 0 <= k < |sales| ensures r[|entries| + k] == Obj(sales[k]) {
        if k == 0 {
          assert r[|entries|] == next[|entries|];
        } else {
          assert r[|next| + (k - 1)] == Obj(sales[1..][k - 1]);
        }
      }
    }
  }

  /** Recording `s1` and then `s2` is recording `s1 + s2`. */
  lemma {:induction false} AfterSalesConcat(entries: seq<Value>, s1: seq<map<string, Value>>, s2: seq<map<string, Value>>)
    ensures AfterSales(AfterSales(entries, s1), s2) == AfterSales(entries, s1 + s2)
    decreases |s1|
  {
    if s1 != [] {
      assert (s1 + s2)[0] == s1[0] && (s1 + s2)[1..] == s1[1..] + s2;
      AfterSalesConcat(entries + [Obj(s1[0])], s1[1..], s2);
    } else {
      assert s1 + s2 == s2;
    }
  }
}
