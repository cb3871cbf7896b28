/** Resolving the CNAME chain at the front of an upstream answer. */
module CnameChain {
  import opened Wrappers
  import opened Dns

  /** Name equality as the wire library decides it, ignoring the root label. */
  type SameName = (Name, Name) -> bool

  /** Length of the CNAME run at the front. */
  function CnameRun(answers: seq<Record>): (n: nat)
    ensures n <= |answers|
    ensures forall i :: 0 <= i < n ==> answers[i].data.CNAME?
    ensures n < |answers| ==> !answers[n].data.CNAME?
  {
    if answers == [] || !answers[0].data.CNAME? then 0 else
    var rest := CnameRun(answers[1..]);
    assert forall i :: 1 <= i < rest + 1 ==> answers[i] == answers[1..][i - 1];
    rest + 1
  }

  /** Index of the last CNAME of the run at the front. */
  function LastCnameIndex(answers: seq<Record>): Option<nat> {
    if answers == [] || !answers[0].data.CNAME? then None else Some(CnameRun(answers) - 1)
  }

  /** Index of the last record that is not a CNAME. */
  function LastData(answers: seq<Record>): (r: Option<nat>)
    ensures r.Some? ==> r.value < |answers| && !answers[r.value].data.CNAME?
    ensures forall i :: (if r.Some? then r.value + 1 else 0) <= i < |answers| ==> answers[i].data.CNAME?
  {
    if answers == [] then None
    else if !answers[|answers| - 1].data.CNAME? then Some(|answers| - 1)
    else LastData(answers[..|answers| - 1])
  }

  /** The answer already leads to an address: the chain's last target owns the last data record. */
  predicate Completed(same: SameName, answers: seq<Record>) {
    var chain, data := LastCnameIndex(answers), LastData(answers);
    && chain.Some? && data.Some? && IsAddress(answers[data.value])
    && same(answers[chain.value].data.target, answers[data.value].owner)
  }

  function WithOwner(r: Record, owner: Name): Record {
    if IsAddress(r) then r.(owner := owner) else r
  }

  function Collapsed(answers: seq<Record>, owner: Name): (r: seq<Record>)
    ensures |r| == |answers| - CnameRun(answers)
  {
    var tail := answers[CnameRun(answers)..];
    seq(|tail|, i requires 0 <= i < |tail| => WithOwner(tail[i], owner))
  }

  method CollapseCompletedChain(answers: seq<Record>, owner: Name) returns (r: seq<Record>)
    ensures r == Collapsed(answers, owner)
  {
    var keepFrom := match LastCnameIndex(answers)
      case Some(i) => i + 1
      case None => 0;
    var tail := answers[keepFrom..];
    r := [];
    for i := 0 to |tail|
      invariant |r| == i && forall k :: 0 <= k < i ==> r[k] == WithOwner(tail[k], owner)
    {
      r := r + [WithOwner(tail[i], owner)];
    }
  }

  function Addresses(answers: seq<Record>, owner: Name): (r: seq<Record>)
    ensures forall i :: 0 <= i < |r| ==> IsAddress(r[i]) && r[i].owner == owner
    ensures answers != [] && IsAddress(answers[0]) ==> r != []
  {
    if answers == [] then [] else
    (if IsAddress(answers[0]) then [answers[0].(owner := owner)] else []) + Addresses(answers[1..], owner)
  }

  /** What upstream said when asked for the chain's last target. */
  datatype Followup = Failed | Resolved(response: Message)

  /** The answers after resolution; `followup` is consulted only for an incomplete chain. */
  function ResolvedAnswers(same: SameName, answers: seq<Record>, owner: Name, followup: Followup): seq<Record> {
    if LastCnameIndex(answers).None? then answers
    else if Completed(same, answers) then Collapsed(answers, owner)
    else match followup
      case Failed => answers
      case Resolved(response) =>
        if response.answers != [] && IsAddress(response.answers[0]) then Addresses(response.answers, owner) else answers
  }

  method ResolveCnames(same: SameName, answers: seq<Record>, owner: Name, followup: Followup) returns (r: seq<Record>)
    ensures r == ResolvedAnswers(same, answers, owner, followup)
  {
    var idx := LastCnameIndex(answers);
    if idx.None? {
      return answers;
    }
    if Completed(same, answers) {
      r := CollapseCompletedChain(answers, owner);
      return;
    }
    r := answers;
    match followup {
      case Failed =>
      case Resolved(response) =>
        if response.answers != [] && IsAddress(response.answers[0]) {
          r := Addresses(response.answers, owner);
        }
    }
  }

  // ---------------------------------------------------------------------------
  // Completed chains
  // ---------------------------------------------------------------------------

  /** The first `n` answers are CNAMEs, and the next one is not. */
  ghost predicate IsChain(answers: seq<Record>, n: nat) {
    && n <= |answers| && (forall i :: 0 <= i < n ==> answers[i].data.CNAME?)
    && (n < |answers| ==> !answers[n].data.CNAME?)
  }

  /** The answer at `d` is not a CNAME, and all behind it are. */
  ghost predicate IsLastData(answers: seq<Record>, d: nat) {
    d < |answers| && !answers[d].data.CNAME? && forall i :: d < i < |answers| ==> answers[i].data.CNAME?
  }

  /** A chain is completed exactly when it has a CNAME, the last record that is none is an address, and the
      name it belongs to is the target of the chain's last CNAME. */
  lemma CompletedExactly(same: SameName, answers: seq<Record>)
    ensures Completed(same, answers) <==>
            exists n: nat, d: nat ::
              && 0 < n && IsChain(answers, n) && IsLastData(answers, d) && IsAddress(answers[d])
              && same(answers[n - 1].data.target, answers[d].owner)
  {
    if Completed(same, answers) {
      assert IsChain(answers, CnameRun(answers)) && IsLastData(answers, LastData(answers).value);
    }
    if n: nat, d: nat :| && 0 < n && IsChain(answers, n) && IsLastData(answers, d) && IsAddress(answers[d])
                         && same(answers[n - 1].data.target, answers[d].owner) {
      ChainLength(answers, n);
      LastDataAt(answers, d);
    }
  }

  lemma ChainLength(answers: seq<Record>, n: nat)
    requires IsChain(answers, n)
    ensures CnameRun(answers) == n
  {
    var m := CnameRun(answers);
    assert !(m < n) && !(n < m);
  }

  lemma LastDataAt(answers: seq<Record>, d: nat)
    requires IsLastData(answers, d)
    ensures LastData(answers) == Some(d)
  {
    var r := LastData(answers);
    assert r.Some? && !(r.value < d) && !(d < r.value);
  }

  /** Collapsing a completed chain keeps everything behind the chain, in order, with its data and TTL;
      the rest of the chain is gone, and every address is owned by the queried name. */
  lemma CollapseMeaning(same: SameName, answers: seq<Record>, owner: Name, followup: Followup)
    requires Completed(same, answers)
    ensures var r := ResolvedAnswers(same, answers, owner, followup); var n := CnameRun(answers);
            && r != [] && |r| == |answers| - n && !r[0].data.CNAME?
            && (forall i :: 0 <= i < |r| ==> r[i].data == answers[n + i].data && r[i].ttl == answers[n + i].ttl)
            && (forall i :: 0 <= i < |r| ==> r[i].owner == if IsAddress(r[i]) then owner else answers[n + i].owner)
            && exists i :: 0 <= i < |r| && IsAddress(r[i])
  {
    var n, last := CnameRun(answers), LastData(answers).value;
    var r := Collapsed(answers, owner);
    assert n <= last;
    assert r[last - n] == WithOwner(answers[last], owner);
  }

  /** Resolving a second time changes nothing, whatever upstream would say. */
  lemma ResolveTwice(same: SameName, answers: seq<Record>, owner: Name, first: Followup, second: Followup)
    requires Completed(same, answers)
    ensures var r := ResolvedAnswers(same, answers, owner, first);
            ResolvedAnswers(same, r, owner, second) == r
  {
    CollapseMeaning(same, answers, owner, first);
  }

  // ---------------------------------------------------------------------------
  // Incomplete chains
  // ---------------------------------------------------------------------------

  /** Otherwise the answers stay as they are, or become the resolved addresses, all owned by the queried
      name and at least one; they are replaced exactly when a chain is followed to an address. */
  lemma IncompleteMeaning(same: SameName, answers: seq<Record>, owner: Name, followup: Followup)
    requires !Completed(same, answers)
    ensures var r := ResolvedAnswers(same, answers, owner, followup);
            var follows := LastCnameIndex(answers).Some? && followup.Resolved?
                           && followup.response.answers != [] && IsAddress(followup.response.answers[0]);
            && (!follows ==> r == answers)
            && (follows ==> r != [] && TakenOver(r, AddressesOf(followup.response.answers), owner))
  {
    if followup.Resolved? {
      AddressesInOrder(followup.response.answers, owner);
    }
  }

  /** `r` is `addresses`, in order, with data and TTL unchanged, all owned by `owner`. */
  predicate TakenOver(r: seq<Record>, addresses: seq<Record>, owner: Name) {
    |r| == |addresses| && forall i :: 0 <= i < |r| ==> IsAddress(r[i]) && r[i] == addresses[i].(owner := owner)
  }

  /** The addresses taken over are those upstream gave, in order, with data and TTL unchanged. */
  lemma {:induction false} AddressesInOrder(answers: seq<Record>, owner: Name)
    ensures TakenOver(Addresses(answers, owner), AddressesOf(answers), owner)
  {
    if answers != [] {
      AddressesInOrder(answers[1..], owner);
    }
  }

  function AddressesOf(answers: seq<Record>): seq<Record> {
    if answers == [] then [] else (if IsAddress(answers[0]) then [answers[0]] else []) + AddressesOf(answers[1..])
  }

  /** The result never starts with a CNAME unless nothing was resolved. */
  lemma NoLeadingCname(same: SameName, answers: seq<Record>, owner: Name, followup: Followup)
    ensures var r := ResolvedAnswers(same, answers, owner, followup);
            r != [] && r[0].data.CNAME? ==> r == answers
  {
    if Completed(same, answers) {
      CollapseMeaning(same, answers, owner, followup);
    }
  }
}
