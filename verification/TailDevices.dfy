/** What the callers of a lookup are told about linked devices. */
module TailDevices {
  import opened Wrappers
  import opened Transparency
  import opened Tail
  import opened TransparencyTheorems
  import opened TailTheorems

  /** The leaf last logged for a device. */
  function LoggedLeaf(chain: seq<LogEntry>, device: Hash, kind: EntryKind): Option<Hash> {
    var last := LastEntry(chain, device, Some(kind));
    if last.Some? then Some(last.value.leaf) else None
  }

  /** The log bears a device's bundle out: it is the last one logged, and a logged
      revocation of the device came with it. */
  predicate Stands(chain: seq<LogEntry>, d: DeviceBundle, served: seq<DeviceRevocation>) {
    var revoked := LoggedLeaf(chain, d.device, RevocationEntry);
    && LoggedLeaf(chain, d.device, BundleEntry) == Some(d.leaf)
    && (revoked.Some? ==> exists r | r in served :: r.device == d.device && r.leaf == revoked.value)
  }

  lemma {:induction false} StatementForIs(rs: seq<DeviceRevocation>, device: Hash)
    ensures var r := StatementFor(rs, device);
            && (r.Some? ==> r.value in rs && r.value.device == device)
            && (r.None? ==> forall other | other in rs :: other.device != device)
  {
    if rs != [] {
      StatementForIs(rs[..|rs| - 1], device);
      assert rs == rs[..|rs| - 1] + [rs[|rs| - 1]];
    }
  }

  lemma {:induction false} CheckDeviceIff(h: Hashing, chain: seq<LogEntry>, d: DeviceBundle, served: seq<DeviceRevocation>)
    ensures var s := StateOf(h, chain);
            CheckDevice(s, d, StatementFor(LoggedOnes(s, served), d.device)).None? <==> Stands(chain, d, served)
  {
    var s := StateOf(h, chain);
    LatestIs(h, chain, d.device);
    LoggedAre(s, served);
    StatementForIs(LoggedOnes(s, served), d.device);
  }

  lemma {:induction false} BorneOutAre(s: LogState, ds: seq<DeviceBundle>, rs: seq<DeviceRevocation>)
    ensures forall d :: d in BorneOut(s, ds, rs) <==> d in ds && CheckDevice(s, d, StatementFor(rs, d.device)).None?
    ensures forall d | d in ds && d !in BorneOut(s, ds, rs) ::
              exists out | out in DeviceOuts(s, ds, rs) :: out.LookupProblem? && out.who == d.device
  {
    if ds != [] {
      var before, last := ds[..|ds| - 1], ds[|ds| - 1];
      BorneOutAre(s, before, rs);
      assert ds == before + [last];
      var check := CheckDevice(s, last, StatementFor(rs, last.device));
      forall d | d in ds && d !in BorneOut(s, ds, rs)
        ensures exists out | out in DeviceOuts(s, ds, rs) :: out.LookupProblem? && out.who == d.device
      {
        if d in before && d !in BorneOut(s, before, rs) {
          var out :| out in DeviceOuts(s, before, rs) && out.LookupProblem? && out.who == d.device;
          assert out in DeviceOuts(s, ds, rs);
        } else {
          assert LookupProblem(last.device, check.value) in DeviceOuts(s, ds, rs);
        }
      }
    }
  }

  lemma {:induction false} UnloggedReported(s: LogState, rs: seq<DeviceRevocation>)
    ensures forall r | r in rs && !IsLogged(s, r) :: LookupProblem(r.device, UnloggedStatement) in UnloggedOuts(s, rs)
  {
    if rs != [] {
      UnloggedReported(s, rs[..|rs| - 1]);
      assert rs == rs[..|rs| - 1] + [rs[|rs| - 1]];
    }
  }

  /** An answer that passes is settled with exactly the devices and the device
      revocations the log bears out, and each one left out is reported. */
  lemma {:induction false} SettledDevicesIff(h: Hashing, chain: seq<LogEntry>, a: Answer)
    returns (settled: Answer)
    requires Passes(StateOf(h, chain), a)
    ensures var outs := Resolve(StateOf(h, chain), a);
            && Settled(settled) in outs && (forall out | out in outs && !out.LookupProblem? :: out == Settled(settled))
            && settled.(devices := a.devices, deviceRevocations := a.deviceRevocations) == a
            && (forall d :: d in settled.devices <==> d in a.devices && Stands(chain, d, a.deviceRevocations))
            && (forall r :: r in settled.deviceRevocations <==>
                  r in a.deviceRevocations && r.valid && LoggedLeaf(chain, r.device, RevocationEntry) == Some(r.leaf))
            && (forall d | d in a.devices && d !in settled.devices ::
                  exists out | out in outs :: out.LookupProblem? && out.who == d.device)
            && (forall r | r in a.deviceRevocations && r.valid && r !in settled.deviceRevocations ::
                  LookupProblem(r.device, UnloggedStatement) in outs)
  {
    var s := StateOf(h, chain);
    var kept := LoggedOnes(s, a.deviceRevocations);
    var problems, out := ResolveParts(s, a);
    settled := out.answer;
    DevicesSettled(h, chain, a, kept);
    RevocationsSettled(h, chain, a.deviceRevocations);
    BorneOutAre(s, a.devices, kept);
    forall d | d in a.devices && d !in settled.devices
      ensures exists out | out in Resolve(s, a) :: out.LookupProblem? && out.who == d.device
    {
      var out :| out in DeviceOuts(s, a.devices, kept) && out.LookupProblem? && out.who == d.device;
      assert out in Resolve(s, a);
    }
  }

  lemma {:induction false} DevicesSettled(h: Hashing, chain: seq<LogEntry>, a: Answer, kept: seq<DeviceRevocation>)
    requires kept == LoggedOnes(StateOf(h, chain), a.deviceRevocations)
    ensures forall d :: d in BorneOut(StateOf(h, chain), a.devices, kept) <==>
                        d in a.devices && Stands(chain, d, a.deviceRevocations)
  {
    BorneOutAre(StateOf(h, chain), a.devices, kept);
    forall d: DeviceBundle
      ensures d in BorneOut(StateOf(h, chain), a.devices, kept) <==>
              d in a.devices && Stands(chain, d, a.deviceRevocations)
    {
      CheckDeviceIff(h, chain, d, a.deviceRevocations);
    }
  }

  lemma {:induction false} RevocationsSettled(h: Hashing, chain: seq<LogEntry>, rs: seq<DeviceRevocation>)
    ensures var s := StateOf(h, chain);
            && (forall r :: r in ValidOnes(LoggedOnes(s, rs)) <==>
                  r in rs && r.valid && LoggedLeaf(chain, r.device, RevocationEntry) == Some(r.leaf))
            && (forall r | r in rs && r.valid && r !in ValidOnes(LoggedOnes(s, rs)) ::
                  LookupProblem(r.device, UnloggedStatement) in UnloggedOuts(s, rs))
  {
    var s := StateOf(h, chain);
    LoggedAre(s, rs);
    ValidAre(LoggedOnes(s, rs));
    UnloggedReported(s, rs);
    forall r: DeviceRevocation
      ensures r in ValidOnes(LoggedOnes(s, rs)) <==>
              r in rs && r.valid && LoggedLeaf(chain, r.device, RevocationEntry) == Some(r.leaf)
    {
      LatestIs(h, chain, r.device);
    }
  }
}
