/**
 `all-standby` (beoutil/main.go:190-216): every cached product is put into
 all-standby through the first of its addresses that reports power state
 "on". The device calls are parameters: `getState` gives the result of
 `GetState` per address, `allStandby` the error (if any) of `AllStandby`.
 The model returns the calls made, in order, and the error returned.
 */
module Standby {
  import opened Results
  import opened Models
  import Discovery
  import Topology

  type Address = Discovery.Address

  datatype Call = GetState(addr: Address) | AllStandby(addr: Address)

  /** The calls made and the value of `err` afterwards. */
  datatype Run = Run(calls: seq<Call>, err: Option<Error>)

  /** The error the call itself produced (nil on success). */
  function CallError(c: Call, getState: Address -> Result<string, Error>, allStandby: Address -> Option<Error>): Option<Error> {
    match c
    case GetState(a) => (match getState(a) case Err(e) => Some(e) case Ok(_) => None)
    case AllStandby(a) => allStandby(a)
  }

  /** A call after which the product is finished with: a state other than "on", or a successful all-standby. */
  predicate Stops(c: Call, getState: Address -> Result<string, Error>, allStandby: Address -> Option<Error>) {
    match c
    case GetState(a) => getState(a).Ok? && getState(a).value != PowerStateOn
    case AllStandby(a) => allStandby(a).None?
  }

  /** No call but the last one finishes the product. */
  predicate StopsOnlyLast(calls: seq<Call>, getState: Address -> Result<string, Error>, allStandby: Address -> Option<Error>) {
    forall i :: 0 <= i < |calls| - 1 ==> !Stops(calls[i], getState, allStandby)
  }

  /** The addresses asked for their state, in order. */
  function StateQueries(calls: seq<Call>): seq<Address> {
    if |calls| == 0 then []
    else (if calls[0].GetState? then [calls[0].addr] else []) + StateQueries(calls[1..])
  }

  /** All-standby is only sent to an address whose state was just read as "on". */
  predicate StandbyOnlyWhenOn(calls: seq<Call>, getState: Address -> Result<string, Error>) {
    forall i :: 0 <= i < |calls| && calls[i].AllStandby? ==>
      i > 0 && calls[i - 1] == GetState(calls[i].addr) && getState(calls[i].addr) == Ok(PowerStateOn)
  }

  /** Every address whose state is read as "on" is sent all-standby straight away. */
  predicate StandbyAfterOn(calls: seq<Call>, getState: Address -> Result<string, Error>) {
    forall i :: 0 <= i < |calls| && calls[i].GetState? && getState(calls[i].addr) == Ok(PowerStateOn) ==>
      i + 1 < |calls| && calls[i + 1] == AllStandby(calls[i].addr)
  }

  /**
   One pass of the inner loop at address `a`: the calls made, whether the
   loop breaks, and the error left in `err`.
   */
  datatype Step = Step(calls: seq<Call>, breaks: bool, err: Option<Error>)

  function AddressStep(a: Address, getState: Address -> Result<string, Error>, allStandby: Address -> Option<Error>): (st: Step)
    ensures st.calls == [GetState(a)] || st.calls == [GetState(a), AllStandby(a)]
    ensures st.err == CallError(st.calls[|st.calls| - 1], getState, allStandby)
    ensures st.breaks <==> Stops(st.calls[|st.calls| - 1], getState, allStandby)
    ensures |st.calls| == 2 <==> getState(a) == Ok(PowerStateOn)
  {
    match getState(a)
    case Err(e) => Step([GetState(a)], false, Some(e))
    case Ok(s) =>
      if s != PowerStateOn then Step([GetState(a)], true, None)
      else Step([GetState(a), AllStandby(a)], allStandby(a).None?, allStandby(a))
  }

  /** The inner loop over one product's addresses, entered with `err` as the current error. */
  function DeviceRun(ips: seq<Address>, getState: Address -> Result<string, Error>, allStandby: Address -> Option<Error>, err: Option<Error>): (r: Run)
    ensures r.err == (if |r.calls| == 0 then err else CallError(r.calls[|r.calls| - 1], getState, allStandby))
    ensures |r.calls| == 0 <==> |ips| == 0
    ensures |ips| > 0 ==> r.calls[0] == GetState(ips[0])
  {
    if |ips| == 0 then Run([], err)
    else
      var st := AddressStep(ips[0], getState, allStandby);
      if st.breaks then Run(st.calls, st.err)
      else
        var rest := DeviceRun(ips[1..], getState, allStandby, st.err);
        var calls := st.calls + rest.calls;
        assert calls[0] == st.calls[0];
        assert |rest.calls| == 0 ==> calls == st.calls;
        assert |rest.calls| > 0 ==> calls[|calls| - 1] == rest.calls[|rest.calls| - 1];
        Run(calls, rest.err)
  }

  /**
   Within one product, all-standby goes only to an address just read as
   "on", every such address gets it at once, and only the product's own
   addresses are contacted.
   */
  lemma {:induction false} DeviceRunCalls(ips: seq<Address>, getState: Address -> Result<string, Error>, allStandby: Address -> Option<Error>, err: Option<Error>)
    ensures var r := DeviceRun(ips, getState, allStandby, err);
      && StandbyOnlyWhenOn(r.calls, getState)
      && StandbyAfterOn(r.calls, getState)
      && (forall i :: 0 <= i < |r.calls| ==> r.calls[i].addr in ips)
  {
    if |ips| > 0 {
      var st := AddressStep(ips[0], getState, allStandby);
      StepStandbyAfterOn(ips[0], getState, allStandby);
      if !st.breaks {
        var rest := DeviceRun(ips[1..], getState, allStandby, st.err);
        DeviceRunCalls(ips[1..], getState, allStandby, st.err);
        StandbyOnlyWhenOnAppend(st.calls, rest.calls, getState);
        StandbyAfterOnAppend(st.calls, rest.calls, getState);
        AddressesAppend(st.calls, rest.calls, [ips[0]], ips[1..]);
        assert [ips[0]] + ips[1..] == ips;
      }
    }
  }

  /** Two call sequences that each send all-standby only after "on" still do so one after the other. */
  lemma StandbyOnlyWhenOnAppend(xs: seq<Call>, ys: seq<Call>, getState: Address -> Result<string, Error>)
    requires StandbyOnlyWhenOn(xs, getState) && StandbyOnlyWhenOn(ys, getState)
    ensures StandbyOnlyWhenOn(xs + ys, getState)
  {
    var zs := xs + ys;
    forall i | 0 <= i < |zs| && zs[i].AllStandby?
      ensures i > 0 && zs[i - 1] == GetState(zs[i].addr) && getState(zs[i].addr) == Ok(PowerStateOn)
    {
      if i < |xs| {
        assert zs[i] == xs[i];
        assert zs[i - 1] == xs[i - 1];
      } else {
        assert zs[i] == ys[i - |xs|];
        assert zs[i - 1] == ys[i - |xs| - 1];
      }
    }
  }

  lemma StepStandbyAfterOn(a: Address, getState: Address -> Result<string, Error>, allStandby: Address -> Option<Error>)
    ensures StandbyAfterOn(AddressStep(a, getState, allStandby).calls, getState)
  {
  }

  /** Two call sequences that each follow every "on" with all-standby still do so one after the other. */
  lemma StandbyAfterOnAppend(xs: seq<Call>, ys: seq<Call>, getState: Address -> Result<string, Error>)
    requires StandbyAfterOn(xs, getState) && StandbyAfterOn(ys, getState)
    ensures StandbyAfterOn(xs + ys, getState)
  {
    var zs := xs + ys;
    forall i | 0 <= i < |zs| && zs[i].GetState? && getState(zs[i].addr) == Ok(PowerStateOn)
      ensures i + 1 < |zs| && zs[i + 1] == AllStandby(zs[i].addr)
    {
      if i < |xs| {
        assert zs[i] == xs[i];
        assert zs[i + 1] == xs[i + 1];
      } else {
        assert zs[i] == ys[i - |xs|];
        assert zs[i + 1] == ys[i - |xs| + 1];
      }
    }
  }

  /** Calls to addresses in `a`, then calls to addresses in `b`, only contact addresses of `a + b`. */
  lemma AddressesAppend(xs: seq<Call>, ys: seq<Call>, a: seq<Address>, b: seq<Address>)
    requires forall i :: 0 <= i < |xs| ==> xs[i].addr in a
    requires forall i :: 0 <= i < |ys| ==> ys[i].addr in b
    ensures forall i :: 0 <= i < |xs + ys| ==> (xs + ys)[i].addr in a + b
  {
    forall i | 0 <= i < |xs + ys|
      ensures (xs + ys)[i].addr in a + b
    {
      if i < |xs| {
        assert (xs + ys)[i] == xs[i];
      } else {
        assert (xs + ys)[i] == ys[i - |xs|];
      }
    }
  }

  lemma StateQueriesAppend(xs: seq<Call>, ys: seq<Call>)
    ensures StateQueries(xs + ys) == StateQueries(xs) + StateQueries(ys)
  {
    if |xs| > 0 {
      assert (xs + ys)[1..] == xs[1..] + ys;
      StateQueriesAppend(xs[1..], ys);
    } else {
      assert xs + ys == ys;
    }
  }

  lemma StepQueries(a: Address, getState: Address -> Result<string, Error>, allStandby: Address -> Option<Error>)
    ensures StateQueries(AddressStep(a, getState, allStandby).calls) == [a]
  {
    var st := AddressStep(a, getState, allStandby);
    if |st.calls| == 2 {
      assert st.calls == [GetState(a), AllStandby(a)];
      assert st.calls[1..] == [AllStandby(a)];
      assert StateQueries([AllStandby(a)]) == [];
    } else {
      assert st.calls[1..] == [];
    }
  }

  /** Work on a product stops at the first state other than "on" or the first successful all-standby: no such call is followed by another. */
  lemma {:induction false} DeviceRunStopsLast(ips: seq<Address>, getState: Address -> Result<string, Error>, allStandby: Address -> Option<Error>, err: Option<Error>)
    ensures StopsOnlyLast(DeviceRun(ips, getState, allStandby, err).calls, getState, allStandby)
  {
    if |ips| > 0 {
      var st := AddressStep(ips[0], getState, allStandby);
      if !st.breaks {
        var rest := DeviceRun(ips[1..], getState, allStandby, st.err);
        DeviceRunStopsLast(ips[1..], getState, allStandby, st.err);
        if |st.calls| == 2 {
          assert !Stops(st.calls[0], getState, allStandby);
        }
        var calls := st.calls + rest.calls;
        assert DeviceRun(ips, getState, allStandby, err).calls == calls;
        assert !Stops(st.calls[|st.calls| - 1], getState, allStandby);
        forall i | 0 <= i < |calls| - 1
          ensures !Stops(calls[i], getState, allStandby)
        {
          if i >= |st.calls| {
            assert calls[i] == rest.calls[i - |st.calls|];
          } else {
            assert calls[i] == st.calls[i];
          }
        }
      } else if |st.calls| == 2 {
        assert !Stops(st.calls[0], getState, allStandby);
      }
    }
  }

  /**
   The addresses of a product are asked for their state in list order, and
   all of them are unless work stopped early.
   */
  lemma {:induction false} DeviceRunInOrder(ips: seq<Address>, getState: Address -> Result<string, Error>, allStandby: Address -> Option<Error>, err: Option<Error>)
    ensures var r := DeviceRun(ips, getState, allStandby, err);
      && StateQueries(r.calls) <= ips
      && (|r.calls| == 0 || !Stops(r.calls[|r.calls| - 1], getState, allStandby) ==> StateQueries(r.calls) == ips)
  {
    if |ips| > 0 {
      var a := ips[0];
      var st := AddressStep(a, getState, allStandby);
      StepQueries(a, getState, allStandby);
      assert ips == [a] + ips[1..];
      if !st.breaks {
        var rest := DeviceRun(ips[1..], getState, allStandby, st.err);
        DeviceRunInOrder(ips[1..], getState, allStandby, st.err);
        StateQueriesAppend(st.calls, rest.calls);
        if |rest.calls| > 0 {
          assert (st.calls + rest.calls)[|st.calls + rest.calls| - 1] == rest.calls[|rest.calls| - 1];
        }
      }
    }
  }

  /** `doAllStandby` after the cache was read: the products in `order`, each through `DeviceRun`. */
  function AllStandbyRun(cached: Discovery.Directory, order: seq<string>, getState: Address -> Result<string, Error>, allStandby: Address -> Option<Error>): (r: Run)
    requires forall i :: 0 <= i < |order| ==> order[i] in cached
    ensures r.err == (if |r.calls| == 0 then None else CallError(r.calls[|r.calls| - 1], getState, allStandby))
  {
    if |order| == 0 then Run([], None)
    else
      var prev := AllStandbyRun(cached, order[..|order| - 1], getState, allStandby);
      var dev := DeviceRun(cached[order[|order| - 1]].ips, getState, allStandby, prev.err);
      Run(prev.calls + dev.calls, dev.err)
  }

  /**
   Over all products, all-standby goes only to an address just read as
   "on", every such address gets it at once, and only cached addresses are
   contacted.
   */
  lemma {:induction false} AllStandbyRunCalls(cached: Discovery.Directory, order: seq<string>, getState: Address -> Result<string, Error>, allStandby: Address -> Option<Error>)
    requires forall i :: 0 <= i < |order| ==> order[i] in cached
    ensures var r := AllStandbyRun(cached, order, getState, allStandby);
      && StandbyOnlyWhenOn(r.calls, getState)
      && StandbyAfterOn(r.calls, getState)
      && (forall i :: 0 <= i < |r.calls| ==> r.calls[i].addr in Topology.QueriedAddresses(cached, order))
  {
    if |order| > 0 {
      var prefix := order[..|order| - 1];
      var prev := AllStandbyRun(cached, prefix, getState, allStandby);
      var ips := cached[order[|order| - 1]].ips;
      var dev := DeviceRun(ips, getState, allStandby, prev.err);
      AllStandbyRunCalls(cached, prefix, getState, allStandby);
      DeviceRunCalls(ips, getState, allStandby, prev.err);
      StandbyOnlyWhenOnAppend(prev.calls, dev.calls, getState);
      StandbyAfterOnAppend(prev.calls, dev.calls, getState);
      AddressesAppend(prev.calls, dev.calls, Topology.QueriedAddresses(cached, prefix), ips);
      assert Topology.QueriedAddresses(cached, order) == Topology.QueriedAddresses(cached, prefix) + ips;
    }
  }

  /**
   The calls for the `n`-th product of `order` are its own `DeviceRun`,
   entered with the error the products before it left, and they come as
   one block right after those products' calls.
   */
  lemma {:induction false} ProductRunAt(cached: Discovery.Directory, order: seq<string>, getState: Address -> Result<string, Error>, allStandby: Address -> Option<Error>, n: nat)
    requires forall i :: 0 <= i < |order| ==> order[i] in cached
    requires n < |order|
    ensures var r := AllStandbyRun(cached, order, getState, allStandby);
      var prev := AllStandbyRun(cached, order[..n], getState, allStandby);
      var dev := DeviceRun(cached[order[n]].ips, getState, allStandby, prev.err).calls;
      |prev.calls| + |dev| <= |r.calls| && r.calls[|prev.calls|..|prev.calls| + |dev|] == dev
  {
    var prev := AllStandbyRun(cached, order[..n], getState, allStandby);
    var dev := DeviceRun(cached[order[n]].ips, getState, allStandby, prev.err).calls;
    RunStep(cached, order, getState, allStandby, n);
    RunPrefix(cached, order, getState, allStandby, n + 1);
    BlockOfPrefix(prev.calls, dev, AllStandbyRun(cached, order, getState, allStandby).calls);
  }

  /** Adding the `n`-th product appends its inner loop, entered with the error left before it. */
  lemma RunStep(cached: Discovery.Directory, order: seq<string>, getState: Address -> Result<string, Error>, allStandby: Address -> Option<Error>, n: nat)
    requires forall i :: 0 <= i < |order| ==> order[i] in cached
    requires n < |order|
    ensures var prev := AllStandbyRun(cached, order[..n], getState, allStandby);
      AllStandbyRun(cached, order[..n + 1], getState, allStandby).calls
        == prev.calls + DeviceRun(cached[order[n]].ips, getState, allStandby, prev.err).calls
  {
    var upto := order[..n + 1];
    assert upto[..n] == order[..n] && upto[n] == order[n];
  }

  lemma BlockOfPrefix<T>(a: seq<T>, b: seq<T>, r: seq<T>)
    requires a + b <= r
    ensures |a| + |b| <= |r| && r[|a|..|a| + |b|] == b
  {
    assert r[..|a| + |b|] == a + b;
  }

  /** The calls for the first `m` products are the start of the calls for all of them. */
  lemma {:induction false} RunPrefix(cached: Discovery.Directory, order: seq<string>, getState: Address -> Result<string, Error>, allStandby: Address -> Option<Error>, m: nat)
    requires forall i :: 0 <= i < |order| ==> order[i] in cached
    requires m <= |order|
    ensures AllStandbyRun(cached, order[..m], getState, allStandby).calls <= AllStandbyRun(cached, order, getState, allStandby).calls
    decreases |order|
  {
    if m == |order| {
      assert order[..m] == order;
    } else {
      var prefix := order[..|order| - 1];
      RunPrefix(cached, prefix, getState, allStandby, m);
      assert prefix[..m] == order[..m];
    }
  }

  /** A product whose first address reports "on" is sent all-standby at that address. */
  lemma OnProductPutInStandby(cached: Discovery.Directory, order: seq<string>, getState: Address -> Result<string, Error>, allStandby: Address -> Option<Error>, n: nat)
    requires forall i :: 0 <= i < |order| ==> order[i] in cached
    requires n < |order| && |cached[order[n]].ips| > 0
    requires getState(cached[order[n]].ips[0]) == Ok(PowerStateOn)
    ensures AllStandby(cached[order[n]].ips[0]) in AllStandbyRun(cached, order, getState, allStandby).calls
  {
    var r := AllStandbyRun(cached, order, getState, allStandby);
    var prev := AllStandbyRun(cached, order[..n], getState, allStandby);
    var dev := DeviceRun(cached[order[n]].ips, getState, allStandby, prev.err).calls;
    ProductRunAt(cached, order, getState, allStandby, n);
    DeviceRunCalls(cached[order[n]].ips, getState, allStandby, prev.err);
    assert dev[0] == GetState(cached[order[n]].ips[0]);
    assert dev[1] == AllStandby(cached[order[n]].ips[0]);
    assert r.calls[|prev.calls| + 1] == dev[1];
  }
}
