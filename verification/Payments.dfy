/** Receipt checks and settlement tracking. */
module Payments {
  import opened Wrappers

  datatype SettlementStatus = Pending | Cleared | Settled | Disputed | Reversed

  datatype SettlementRecord = SettlementRecord(
    jobId: string, receiptId: string, amount: real, fromAccount: string, toAccount: string, processor: string,
    status: SettlementStatus, confirmedAt: Option<real>)

  type Settlements = map<string, SettlementRecord>

  /** f"set-{job_id}" */
  function Key(jobId: string): string { "set-" + jobId }

  lemma KeyInjective(a: string, b: string)
    requires Key(a) == Key(b)
    ensures a == b
  {
    assert Key(a)[4..] == a && Key(b)[4..] == b;
  }

  function Record(s: Settlements, jobId: string, receiptId: string, amount: real, fromAccount: string, toAccount: string,
                  processor: string): Settlements {
    s[Key(jobId) := SettlementRecord(jobId, receiptId, amount, fromAccount, toAccount, processor, Pending, None)]
  }

  function Confirm(s: Settlements, key: string, now: real): Settlements {
    if key in s then s[key := s[key].(status := Settled, confirmedAt := Some(now))] else s
  }

  predicate IsSettled(s: Settlements, jobId: string) { Key(jobId) in s && s[Key(jobId)].status == Settled }

  /** The receipt checks that can fail once the status is settled. */
  predicate ReceiptValid(processor: string, txId: string, amount: real) {
    amount > 0.0 && processor in {"stripe", "solana", "ethereum", "manual"} && txId != ""
  }

  /** A receipt passes exactly with a positive amount, one of four processors and a transaction id. */
  lemma ReceiptValidExactly(processor: string, txId: string, amount: real)
    ensures ReceiptValid(processor, txId, amount) <==>
      amount > 0.0 && |txId| >= 1
      && (processor == "stripe" || processor == "solana" || processor == "ethereum" || processor == "manual")
  {
  }

  /** A recorded settlement is pending under set- and the job id and not yet settled; confirming it settles it and keeps
      the rest; other keys and unknown ones are left alone. */
  lemma SettlementLife(s: Settlements, jobId: string, receiptId: string, amount: real, fromAccount: string,
                       toAccount: string, processor: string, now: real, other: string)
    ensures
      var (key, otherKey) := ("set-" + jobId, "set-" + other);
      var recorded := Record(s, jobId, receiptId, amount, fromAccount, toAccount, processor);
      var confirmed := Confirm(recorded, key, now);
      recorded == s[key := SettlementRecord(jobId, receiptId, amount, fromAccount, toAccount, processor, Pending, None)]
      && confirmed == s[key := SettlementRecord(jobId, receiptId, amount, fromAccount, toAccount, processor, Settled, Some(now))]
      && !IsSettled(recorded, jobId) && IsSettled(confirmed, jobId)
      && (other !in s ==> Confirm(s, other, now) == s)
      && (IsSettled(s, other) <==> otherKey in s && s[otherKey].status == Settled)
  {
  }

  class SettlementTracker {
    var settlements: Settlements

    constructor ()
      ensures settlements == map[]
    {
      settlements := map[];
    }

    method RecordSettlement(jobId: string, receiptId: string, amount: real, fromAccount: string, toAccount: string,
                            processor: string) returns (key: string)
      modifies this
      ensures settlements == Record(old(settlements), jobId, receiptId, amount, fromAccount, toAccount, processor)
      ensures key == Key(jobId)
      ensures !IsSettled(settlements, jobId)
    {
      key := "set-" + jobId;
      settlements := settlements[key := SettlementRecord(jobId, receiptId, amount, fromAccount, toAccount, processor,
                                                         Pending, None)];
    }

    method ConfirmSettlement(key: string, now: real) returns (found: bool)
      modifies this
      ensures settlements == Confirm(old(settlements), key, now) && found == (key in old(settlements))
    {
      if key !in settlements {
        return false;
      }
      var r := settlements[key].(status := Settled);
      settlements := settlements[key := r.(confirmedAt := Some(now))];
      return true;
    }
  }
}
