// The gateway's dispatch tables as it keeps them, and its operations: each one
// changes the tables as the corresponding fact does.
module DispatchGateway {
  import opened Bytes
  import opened Wrappers
  import opened HistoryProof
  import opened HistoryChain
  import opened DispatchTables
  import opened DispatchSnapshot
  import opened RowBuffer

  class Gateway {
    const config: Config
    const accepted: Rows<DispatchProof>
    const unknown: Rows<Unknown>
    const bindings: Rows<Binding>

    ghost predicate Valid()
      reads this, accepted, accepted.data, unknown, unknown.data, bindings, bindings.data
    {
      && accepted.Valid() && unknown.Valid() && bindings.Valid()
      && accepted.data.Length == config.capacity && unknown.data.Length == config.capacity
      && bindings.data.Length == MAX_AUTHORITY_RECORDS
      && accepted.count + unknown.count <= config.capacity
    }

    ghost function View(): (t: Tables)
      requires Valid()
      reads this, accepted, accepted.data, unknown, unknown.data, bindings, bindings.data
    {
      Tables(accepted.Contents(), unknown.Contents(), bindings.Contents())
    }

    constructor (config: Config)
      ensures Valid() && View() == EMPTY && this.config == config
      ensures fresh(accepted) && fresh(accepted.data) && fresh(unknown) && fresh(unknown.data)
      ensures fresh(bindings) && fresh(bindings.data)
    {
      this.config := config;
      accepted := new Rows(config.capacity);
      unknown := new Rows(config.capacity);
      bindings := new Rows(MAX_AUTHORITY_RECORDS);
    }

    function AcceptedCount(): (n: nat)
      requires Valid()
      reads this, accepted, accepted.data, unknown, unknown.data, bindings, bindings.data
      ensures n == |View().accepted|
    {
      accepted.count
    }

    function UnknownCount(): (n: nat)
      requires Valid()
      reads this, accepted, accepted.data, unknown, unknown.data, bindings, bindings.data
      ensures n == |View().unknown|
    {
      unknown.count
    }

    function AcceptedAt(i: nat): (p: DispatchProof)
      requires Valid() && i < |View().accepted|
      reads this, accepted, accepted.data, unknown, unknown.data, bindings, bindings.data
      ensures p == View().accepted[i]
    {
      accepted.Get(i)
    }

    function UnknownAt(i: nat): (u: Unknown)
      requires Valid() && i < |View().unknown|
      reads this, accepted, accepted.data, unknown, unknown.data, bindings, bindings.data
      ensures u == View().unknown[i]
    {
      unknown.Get(i)
    }

    method SetUnknown(i: nat, u: Unknown)
      requires Valid() && i < |View().unknown|
      modifies unknown.data
      ensures Valid() && View() == old(View()).(unknown := old(View()).unknown[i := u])
    {
      unknown.Set(i, u);
    }

    method RootIsBound(origin: Source, root: Root) returns (already: bool)
      requires Valid()
      ensures already == AlreadyBound(View(), origin, root)
    {
      var i := FindBinding(origin);
      already := i < bindings.count && bindings.Get(i).root == root;
    }

    // The rows a checkpoint is written from.
    method Rows() returns (t: Tables)
      requires Valid()
      ensures t == View()
    {
      t := Tables(accepted.data[..accepted.count], unknown.data[..unknown.count], bindings.data[..bindings.count]);
    }

    method BindingRows() returns (rows: seq<Binding>)
      requires Valid()
      ensures rows == View().bindings && |rows| <= MAX_AUTHORITY_RECORDS
    {
      rows := bindings.data[..bindings.count];
    }

    method RestoreBindings(rows: seq<Binding>)
      requires Valid() && |rows| <= MAX_AUTHORITY_RECORDS
      modifies bindings, bindings.data
      ensures Valid() && View() == old(View()).(bindings := rows)
    {
      bindings.Clear();
      for i := 0 to |rows|
        invariant Valid() && bindings.count == i && View() == old(View()).(bindings := rows[..i])
      {
        bindings.Push(rows[i]);
      }
      assert rows[..|rows|] == rows;
    }

    method FindAccepted(k: Key) returns (i: nat)
      requires Valid()
      ensures i == AcceptedIndex(View().accepted, k)
    {
      i := 0;
      while i < accepted.count && KeyOf(accepted.Get(i)) != k
        invariant i <= accepted.count && forall j :: 0 <= j < i ==> KeyOf(accepted.Contents()[j]) != k
      {
        i := i + 1;
      }
    }

    method FindUnknown(k: Key) returns (i: nat)
      requires Valid()
      ensures i == UnknownIndex(View().unknown, k)
    {
      i := 0;
      while i < unknown.count && KeyOf(unknown.Get(i).proof) != k
        invariant i <= unknown.count && forall j :: 0 <= j < i ==> KeyOf(unknown.Contents()[j].proof) != k
      {
        i := i + 1;
      }
    }

    method FindBinding(origin: Source) returns (i: nat)
      requires Valid()
      ensures i == BindingIndex(View().bindings, origin)
    {
      i := 0;
      while i < bindings.count && bindings.Get(i).origin != origin
        invariant i <= bindings.count && forall j :: 0 <= j < i ==> bindings.Contents()[j].origin != origin
      {
        i := i + 1;
      }
    }

    method MarkUncertain(p: DispatchProof) returns (r: Result<(), DispatchError>)
      requires Valid()
      modifies unknown, unknown.data
      ensures Valid()
      ensures r.Ok? ==> Marked(old(View()), p, config) == Ok(View())
      ensures r.Err? ==> Marked(old(View()), p, config) == Err(r.error) && View() == old(View())
    {
      var i := FindUnknown(KeyOf(p));
      if i < unknown.count { return Ok(()); }
      if accepted.count + unknown.count >= config.capacity { return Err(DispatchCapacity); }
      unknown.Push(Unknown(p, 0, None));
      return Ok(());
    }

    method RestoreAccepted(p: DispatchProof) returns (r: Result<(), DispatchError>)
      requires Valid()
      modifies accepted, accepted.data
      ensures Valid()
      ensures r.Ok? ==> Restored(old(View()), p, config) == Ok(View())
      ensures r.Err? ==> Restored(old(View()), p, config) == Err(r.error) && View() == old(View())
    {
      if p.context.account !in config.routes { return Err(UnknownAccount); }
      if p.command.id == 0 { return Err(InvalidDispatchIdentity); }
      var i := FindAccepted(KeyOf(p));
      if i < accepted.count {
        if accepted.Get(i) != p { return Err(DispatchIdentityConflict); }
        return Ok(());
      }
      if accepted.count + unknown.count >= config.capacity { return Err(DispatchCapacity); }
      accepted.Push(p);
      return Ok(());
    }

    method SetBinding(b: Binding)
      requires Valid() && (NewOrigin(View().bindings, b.origin) ==> |View().bindings| < MAX_AUTHORITY_RECORDS)
      modifies bindings, bindings.data
      ensures Valid() && View() == old(View()).(bindings := Bound(old(View()).bindings, b))
    {
      var i := FindBinding(b.origin);
      if i < bindings.count { bindings.Set(i, b); } else { bindings.Push(b); }
    }

    method DropUnknownOfOrder(origin: Source, order: u64) returns (pinned: bool)
      requires Valid()
      modifies unknown, unknown.data
      ensures Valid() && pinned == Pinned(old(View()).unknown, origin, order)
      ensures View().accepted == old(View()).accepted && View().bindings == old(View()).bindings
      ensures !pinned ==> View().unknown == KeepUnknown(old(View()).unknown, origin, order)
    {
      hide OfOrder, Unsettled, UnknownFrom, PinnedFrom, KeepUnknown, Pinned;
      ghost var all := unknown.Contents();
      var index := 0;
      UnknownEnds(all, origin, order);
      while index < unknown.count
        invariant Valid() && index <= unknown.count <= |all|
        invariant accepted.Contents() == old(accepted.Contents()) && bindings.Contents() == old(bindings.Contents())
        invariant UnknownFrom(unknown.Contents(), index, origin, order) == KeepUnknown(all, origin, order)
        invariant PinnedFrom(unknown.Contents(), index, origin, order) == Pinned(all, origin, order)
        decreases unknown.count - index
      {
        UnknownStep(unknown.Contents(), index, origin, order);
        var u := unknown.Get(index);
        if !OfOrder(u.proof, origin, order) {
          index := index + 1;
        } else {
          if Unsettled(u) { return true; }
          unknown.RemoveAt(index);
        }
      }
      UnknownEnds(unknown.Contents(), origin, order);
      return false;
    }

    method DropAcceptedOfOrder(origin: Source, order: u64)
      requires Valid()
      modifies accepted, accepted.data
      ensures Valid() && View() == old(View()).(accepted := KeepAccepted(old(View()).accepted, origin, order))
    {
      hide OfOrder, AcceptedFrom, KeepAccepted;
      ghost var all := accepted.Contents();
      var index := 0;
      AcceptedEnds(all, origin, order);
      while index < accepted.count
        invariant Valid() && index <= accepted.count <= |all|
        invariant unknown.Contents() == old(unknown.Contents()) && bindings.Contents() == old(bindings.Contents())
        invariant AcceptedFrom(accepted.Contents(), index, origin, order) == KeepAccepted(all, origin, order)
        decreases accepted.count - index
      {
        AcceptedStep(accepted.Contents(), index, origin, order);
        var p := accepted.Get(index);
        if !OfOrder(p, origin, order) { index := index + 1; } else { accepted.RemoveAt(index); }
      }
      AcceptedEnds(accepted.Contents(), origin, order);
    }

    // On an error the tables may be half changed; callers work on a copy.
    method ApplyDispatchArchive(commit: ArchiveCommit) returns (r: Result<(), DispatchError>)
      requires Valid()
      modifies accepted, accepted.data, unknown, unknown.data, bindings, bindings.data
      ensures Valid()
      ensures r.Ok? ==> WithArchive(old(View()), commit) == Ok(View())
      ensures r.Err? ==> WithArchive(old(View()), commit) == Err(r.error)
    {
      hide KeepUnknown, KeepAccepted, Pinned, AcceptsRoot, Bound;
      var o, root := commit.origin, commit.receipt.root;
      ghost var before := View();
      if o.decisionStream == 0 || commit.order == 0 || o.account != root.origin.account
         || o.decisionStream != root.origin.stream.id || o.testShard != 0 { return Err(DispatchArchiveNotCommitted); }
      var i := FindBinding(o);
      var previous := if i < bindings.count then Some(bindings.Get(i).root) else None;
      assert previous == PreviousRoot(before.bindings, o);
      if previous == Some(root) {
        if !AcceptsRoot(previous, commit.receipt, commit.receipt.qualificationDigest) { return Err(HistoryRefused); }
      } else if !AcceptsRoot(previous, commit.receipt, root.qualificationDigest) { return Err(HistoryRefused); }
      if i == bindings.count && bindings.count == MAX_AUTHORITY_RECORDS { return Err(DispatchCapacity); }
      SetBinding(Binding(o, root, Some(commit)));
      var pinned := DropUnknownOfOrder(o, commit.order);
      if pinned { return Err(DispatchArchivePinned); }
      DropAcceptedOfOrder(o, commit.order);
      return Ok(());
    }

    method ApplyEconomicHistory(commit: EconomicCommit) returns (r: Result<(), DispatchError>)
      requires Valid()
      modifies bindings, bindings.data
      ensures Valid()
      ensures r.Ok? ==> WithEconomic(old(View()), commit) == Ok(View())
      ensures r.Err? ==> WithEconomic(old(View()), commit) == Err(r.error) && View() == old(View())
    {
      hide AcceptsRoot, Bound;
      var o, root := commit.origin, commit.receipt.root;
      ghost var before := View();
      if o.decisionStream == 0 || o.portfolio == 0 || o.testShard != 0 || commit.identity == 0
          || o.account != root.origin.account
         || o.decisionStream != root.origin.stream.id || commit.qualification != commit.receipt.qualificationDigest
         || (commit.kind != ReconciliationWindow && commit.kind != Deployment && commit.identity > U64_MAX) {
        return Err(EconomicHistoryNotCommitted);
      }
      var i := FindBinding(o);
      var previous := if i < bindings.count then Some(bindings.Get(i).root) else None;
      assert previous == PreviousRoot(before.bindings, o);
      if !AcceptsRoot(previous, commit.receipt, commit.qualification) { return Err(HistoryRefused); }
      if previous == Some(root) { return Ok(()); }
      if i == bindings.count && bindings.count == MAX_AUTHORITY_RECORDS { return Err(DispatchCapacity); }
      SetBinding(Binding(o, root, if i < bindings.count then bindings.Get(i).lastOrder else None));
      return Ok(());
    }

    // The change one committed fact makes while recovery replays the log.
    method ApplyFact(f: Fact) returns (r: Result<(), DispatchError>)
      requires Valid()
      modifies accepted, accepted.data, unknown, unknown.data, bindings, bindings.data
      ensures Valid()
      ensures r.Ok? ==> Readmitted(old(View()), f, config) == Ok(View())
      ensures r.Err? ==> Readmitted(old(View()), f, config) == Err(r.error)
    {
      hide WithArchive, WithEconomic, WithOutcome, WithResolution, ValidPersisted;
      match f
      case Attempt(p) =>
        var i := FindUnknown(KeyOf(p));
        var j := FindAccepted(KeyOf(p));
        if !ValidPersisted(p) || i < unknown.count || j < accepted.count { return Err(DurableDispatchUnavailable); }
        var marked := MarkUncertain(p);
        r := if marked.Ok? then Ok(()) else Err(DurableDispatchUnavailable);
      case Outcome(p) => r := ApplyOutcome(p);
      case Resolution(origin, account, command, reconciliation, status) =>
        r := ApplyResolution(Key(origin, account, command), reconciliation, status);
      case Archive(commit) => r := ApplyDispatchArchive(commit);
      case Economic(commit) => r := ApplyEconomicHistory(commit);
    }

    method ApplyOutcome(p: DispatchProof) returns (r: Result<(), DispatchError>)
      requires Valid()
      modifies accepted, accepted.data, unknown, unknown.data
      ensures Valid()
      ensures r.Ok? ==> Readmitted(old(View()), Outcome(p), config) == Ok(View())
      ensures r.Err? ==> Readmitted(old(View()), Outcome(p), config) == Err(r.error)
    {
      hide ValidPersisted;
      var i := FindUnknown(KeyOf(p));
      if i == unknown.count { return Err(DurableDispatchUnavailable); }
      var u := unknown.Get(i);
      if u.reconciliation != 0 || u.proof != p { return Err(DurableDispatchUnavailable); }
      unknown.RemoveAt(i);
      var restored := RestoreAccepted(p);
      r := if restored.Ok? then Ok(()) else Err(DurableDispatchUnavailable);
    }

    method ApplyResolution(k: Key, reconciliation: u64, status: Status) returns (r: Result<(), DispatchError>)
      requires Valid()
      modifies unknown.data
      ensures Valid()
      ensures r.Ok? ==> WithResolution(old(View()), k, reconciliation, status) == Ok(View())
      ensures r.Err? ==> WithResolution(old(View()), k, reconciliation, status) == Err(r.error)
    {
      if reconciliation == 0 || status == Unresolved { return Err(DurableDispatchUnavailable); }
      var i := FindUnknown(k);
      if i == unknown.count { return Err(DurableDispatchUnavailable); }
      var u := unknown.Get(i);
      if u.reconciliation != 0 { return Err(DurableDispatchUnavailable); }
      unknown.Set(i, Unknown(u.proof, reconciliation, Some(status)));
      return Ok(());
    }

    // ----- Recovery

    method LoadBindingRows(rows: seq<Binding>) returns (r: Result<(), DispatchError>)
      requires Valid() && View() == EMPTY && |rows| <= MAX_AUTHORITY_RECORDS
      modifies bindings, bindings.data
      ensures Valid() && View() == Tables([], [], View().bindings)
      ensures LoadBindings(rows) == if r.Ok? then Ok(View().bindings) else Err(r.error)
    {
      hide Loadable, Refusal;
      assert LoadBindings([]) == Ok([]);
      assert rows[..0] == [];
      for i := 0 to |rows|
        invariant Valid() && View() == Tables([], [], View().bindings) && |View().bindings| == i
        invariant LoadBindings(rows[..i]) == Ok(View().bindings)
      {
        var b := rows[i];
        BindingRow(rows, i);
        var j := FindBinding(b.origin);
        if j < bindings.count || !Loadable(b) { return Err(Refusal(b, j < bindings.count)); }
        bindings.Push(b);
      }
      assert rows[..|rows|] == rows;
      return Ok(());
    }

    method LoadAcceptedRows(rows: seq<DispatchProof>, ghost start: Tables) returns (r: Result<(), DispatchError>)
      requires Valid() && View() == start
      modifies accepted, accepted.data
      ensures Valid()
      ensures LoadAccepted(start, rows, config) == if r.Ok? then Ok(View()) else Err(r.error)
    {
      hide ValidPersisted, Restored;
      assert rows[..0] == [] && LoadAccepted(start, [], config) == Ok(start);
      for i := 0 to |rows|
        invariant Valid() && LoadAccepted(start, rows[..i], config) == Ok(View())
      {
        AcceptedRow(start, rows, i, config);
        var j := FindAccepted(KeyOf(rows[i]));
        if !ValidPersisted(rows[i]) || j < accepted.count { return Err(DurableDispatchUnavailable); }
        var restored := RestoreAccepted(rows[i]);
        if restored.Err? { return Err(restored.error); }
      }
      assert rows[..|rows|] == rows;
      return Ok(());
    }

    method LoadUnknownRows(rows: seq<Unknown>, ghost start: Tables) returns (r: Result<(), DispatchError>)
      requires Valid() && View() == start
      modifies unknown, unknown.data
      ensures Valid()
      ensures LoadUnknown(start, rows, config) == if r.Ok? then Ok(View()) else Err(r.error)
    {
      hide ValidPersisted, UnknownSound, IsAccepted, IsUnknown, Full;
      assert rows[..0] == [] && LoadUnknown(start, [], config) == Ok(start);
      for i := 0 to |rows|
        invariant Valid() && LoadUnknown(start, rows[..i], config) == Ok(View())
      {
        UnknownRow(start, rows, i, config);
        r := LoadUnknownRow(rows[i]);
        if r.Err? { return; }
      }
      assert rows[..|rows|] == rows;
      return Ok(());
    }

    method LoadUnknownRow(u: Unknown) returns (r: Result<(), DispatchError>)
      requires Valid()
      modifies unknown, unknown.data
      ensures Valid()
      ensures var before := old(View());
        var isNew := && ValidPersisted(u.proof) && UnknownSound(u) && !IsAccepted(before, KeyOf(u.proof))
                     && !IsUnknown(before, KeyOf(u.proof));
        && r == (if !isNew then Err(DurableDispatchUnavailable)
                 else if Full(before, config) then Err(DispatchCapacity) else Ok(()))
        && View() == if r.Ok? then before.(unknown := before.unknown + [u]) else before
    {
      hide ValidPersisted, UnknownSound;
      var i := FindAccepted(KeyOf(u.proof));
      var j := FindUnknown(KeyOf(u.proof));
      if !ValidPersisted(u.proof) || !UnknownSound(u) || i < accepted.count || j < unknown.count {
        return Err(DurableDispatchUnavailable);
      }
      r := MarkUncertain(u.proof);
      if r.Err? { return; }
      unknown.Set(unknown.count - 1, u);
      return Ok(());
    }

    method LoadSnapshot(s: Snapshot) returns (r: Result<(), DispatchError>)
      requires Valid() && View() == EMPTY
      modifies accepted, accepted.data, unknown, unknown.data, bindings, bindings.data
      ensures Valid()
      ensures Load(s, config) == if r.Ok? then Ok(View()) else Err(r.error)
    {
      hide LoadBindings, LoadAccepted, LoadUnknown;
      if |s.accepted| + |s.unknown| > config.capacity || |s.routes| > MAX_ROUTES
         || |s.bindings| > MAX_AUTHORITY_RECORDS {
        return Err(DurableDispatchUnavailable);
      }
      r := LoadBindingRows(s.bindings);
      if r.Err? { return; }
      r := LoadAcceptedRows(s.accepted, View());
      if r.Err? { return; }
      r := LoadUnknownRows(s.unknown, View());
      if r.Err? { return; }
      for i := 0 to |s.routes|
        invariant forall k :: 0 <= k < i ==> s.routes[k] in config.routes
      {
        if s.routes[i] !in config.routes { return Err(DurableDispatchUnavailable); }
      }
    }

    method TakeOver(candidate: Gateway)
      requires Valid() && candidate.Valid() && candidate.config == config
      requires candidate.accepted != accepted && candidate.unknown != unknown && candidate.bindings != bindings
      requires candidate.accepted.data != accepted.data && candidate.unknown.data != unknown.data
      requires candidate.bindings.data != bindings.data
      modifies accepted, accepted.data, unknown, unknown.data, bindings, bindings.data
      ensures Valid() && View() == old(candidate.View())
    {
      accepted.CopyFrom(candidate.accepted);
      unknown.CopyFrom(candidate.unknown);
      bindings.CopyFrom(candidate.bindings);
    }

    // Recovery works on a copy; this gateway changes only when all of it succeeds.
    method AttachRecovered(s: Snapshot, log: seq<Fact>) returns (r: Result<(), DispatchError>)
      requires Valid()
      modifies accepted, accepted.data, unknown, unknown.data, bindings, bindings.data
      ensures Valid()
      ensures Recover(s, log, config) == if r.Ok? then Ok(View()) else Err(r.error)
      ensures r.Err? ==> View() == old(View())
    {
      hide LoadBindings, LoadUnknown, Valid, View, Readmitted;
      if s.barrier > |log| { return Err(DurableDispatchUnavailable); }
      var candidate := new Gateway(config);
      r := candidate.LoadSnapshot(s);
      if r.Err? { return; }
      ghost var tail, loaded := log[s.barrier..], candidate.View();
      assert tail[..0] == [] && Readback(loaded, [], config) == Ok(loaded);
      for i := s.barrier to |log|
        invariant candidate.Valid() && Readback(loaded, tail[..i - s.barrier], config) == Ok(candidate.View())
        invariant Valid() && View() == old(View())
      {
        ReadbackRow(loaded, tail, i - s.barrier, config);
        r := candidate.ApplyFact(log[i]);
        if r.Err? { return; }
      }
      assert tail[..|log| - s.barrier] == tail;
      TakeOver(candidate);
      return Ok(());
    }
  }

  // ----- Loading loops: one more row, and failure of a row is failure of the whole

  lemma {:induction false} BindingRow(rows: seq<Binding>, i: nat)
    requires i < |rows| && LoadBindings(rows[..i]).Ok?
    ensures var before, b := LoadBindings(rows[..i]).value, rows[i];
      var known := !NewOrigin(before, b.origin);
      if known || !Loadable(b) then LoadBindings(rows) == Err(Refusal(b, known))
      else LoadBindings(rows[..i + 1]) == Ok(before + [b])
  {
    hide Loadable, NewOrigin, Refusal;
    assert rows[..i + 1][..i] == rows[..i];
    if LoadBindings(rows[..i + 1]).Err? { BindingsFail(rows, i + 1); }
  }

  lemma {:induction false} BindingsFail(rows: seq<Binding>, i: nat)
    requires i <= |rows| && LoadBindings(rows[..i]).Err?
    ensures LoadBindings(rows) == LoadBindings(rows[..i])
    decreases |rows|
  {
    if i == |rows| {
      assert rows[..i] == rows;
    } else {
      var n := |rows| - 1;
      assert rows[..n][..i] == rows[..i];
      BindingsFail(rows[..n], i);
    }
  }

  lemma AcceptedRow(t: Tables, rows: seq<DispatchProof>, i: nat, c: Config)
    requires i < |rows| && LoadAccepted(t, rows[..i], c).Ok?
    ensures var before, p := LoadAccepted(t, rows[..i], c).value, rows[i];
      if !ValidPersisted(p) || IsAccepted(before, KeyOf(p)) then
        LoadAccepted(t, rows, c) == Err(DurableDispatchUnavailable)
      else if Restored(before, p, c).Err? then LoadAccepted(t, rows, c) == Restored(before, p, c)
      else LoadAccepted(t, rows[..i + 1], c) == Restored(before, p, c)
  {
    hide ValidPersisted, Restored, IsAccepted;
    assert rows[..i + 1][..i] == rows[..i];
    if LoadAccepted(t, rows[..i + 1], c).Err? { AcceptedFail(t, rows, i + 1, c); }
  }

  lemma {:induction false} AcceptedFail(t: Tables, rows: seq<DispatchProof>, i: nat, c: Config)
    requires i <= |rows| && LoadAccepted(t, rows[..i], c).Err?
    ensures LoadAccepted(t, rows, c) == LoadAccepted(t, rows[..i], c)
    decreases |rows|
  {
    if i == |rows| {
      assert rows[..i] == rows;
    } else {
      var n := |rows| - 1;
      assert rows[..n][..i] == rows[..i];
      AcceptedFail(t, rows[..n], i, c);
    }
  }

  lemma UnknownRow(t: Tables, rows: seq<Unknown>, i: nat, c: Config)
    requires i < |rows| && LoadUnknown(t, rows[..i], c).Ok?
    ensures var before, u := LoadUnknown(t, rows[..i], c).value, rows[i];
      if !ValidPersisted(u.proof) || !UnknownSound(u) || IsAccepted(before, KeyOf(u.proof))
         || IsUnknown(before, KeyOf(u.proof)) then LoadUnknown(t, rows, c) == Err(DurableDispatchUnavailable)
      else if Full(before, c) then LoadUnknown(t, rows, c) == Err(DispatchCapacity)
      else LoadUnknown(t, rows[..i + 1], c) == Ok(before.(unknown := before.unknown + [u]))
  {
    hide ValidPersisted, UnknownSound, IsAccepted, IsUnknown;
    assert rows[..i + 1][..i] == rows[..i];
    if LoadUnknown(t, rows[..i + 1], c).Err? { UnknownFail(t, rows, i + 1, c); }
  }

  lemma {:induction false} UnknownFail(t: Tables, rows: seq<Unknown>, i: nat, c: Config)
    requires i <= |rows| && LoadUnknown(t, rows[..i], c).Err?
    ensures LoadUnknown(t, rows, c) == LoadUnknown(t, rows[..i], c)
    decreases |rows|
  {
    if i == |rows| {
      assert rows[..i] == rows;
    } else {
      var n := |rows| - 1;
      assert rows[..n][..i] == rows[..i];
      UnknownFail(t, rows[..n], i, c);
    }
  }

  lemma ReadbackRow(t: Tables, log: seq<Fact>, i: nat, c: Config)
    requires i < |log| && Readback(t, log[..i], c).Ok?
    ensures var next := Readmitted(Readback(t, log[..i], c).value, log[i], c);
      Readback(t, log[..i + 1], c) == next && (next.Err? ==> Readback(t, log, c) == next)
  {
    hide Readmitted;
    assert log[..i + 1][..i] == log[..i];
    if Readback(t, log[..i + 1], c).Err? { ReadbackFail(t, log, i + 1, c); }
  }

  lemma {:induction false} ReadbackFail(t: Tables, log: seq<Fact>, i: nat, c: Config)
    requires i <= |log| && Readback(t, log[..i], c).Err?
    ensures Readback(t, log, c) == Readback(t, log[..i], c)
    decreases |log|
  {
    hide Readmitted;
    if i == |log| {
      assert log[..i] == log;
    } else {
      var n := |log| - 1;
      assert log[..n][..i] == log[..i];
      ReadbackFail(t, log[..n], i, c);
    }
  }

  // ----- The removal loops: rows before index are kept, rows from it on are still to be filtered

  function UnknownFrom(rows: seq<Unknown>, index: nat, origin: Source, order: u64): seq<Unknown>
    requires index <= |rows|
  {
    rows[..index] + KeepUnknown(rows[index..], origin, order)
  }

  predicate PinnedFrom(rows: seq<Unknown>, index: nat, origin: Source, order: u64)
    requires index <= |rows|
  {
    Pinned(rows[index..], origin, order)
  }

  function AcceptedFrom(rows: seq<DispatchProof>, index: nat, origin: Source, order: u64): seq<DispatchProof>
    requires index <= |rows|
  {
    rows[..index] + KeepAccepted(rows[index..], origin, order)
  }

  lemma UnknownEnds(rows: seq<Unknown>, origin: Source, order: u64)
    ensures UnknownFrom(rows, 0, origin, order) == KeepUnknown(rows, origin, order)
    ensures PinnedFrom(rows, 0, origin, order) == Pinned(rows, origin, order)
    ensures UnknownFrom(rows, |rows|, origin, order) == rows && !PinnedFrom(rows, |rows|, origin, order)
  {
    assert rows[0..] == rows && rows[|rows|..] == [];
  }

  lemma AcceptedEnds(rows: seq<DispatchProof>, origin: Source, order: u64)
    ensures AcceptedFrom(rows, 0, origin, order) == KeepAccepted(rows, origin, order)
    ensures AcceptedFrom(rows, |rows|, origin, order) == rows
  {
    assert rows[0..] == rows && rows[|rows|..] == [];
  }

  lemma UnknownStep(rows: seq<Unknown>, index: nat, origin: Source, order: u64)
    requires index < |rows|
    ensures var u, shorter := rows[index], rows[..index] + rows[index + 1..];
      if !OfOrder(u.proof, origin, order) then
        && UnknownFrom(rows, index + 1, origin, order) == UnknownFrom(rows, index, origin, order)
        && PinnedFrom(rows, index + 1, origin, order) == PinnedFrom(rows, index, origin, order)
      else
        && UnknownFrom(shorter, index, origin, order) == UnknownFrom(rows, index, origin, order)
        && PinnedFrom(rows, index, origin, order) == (Unsettled(u) || PinnedFrom(shorter, index, origin, order))
  {
    hide OfOrder, Unsettled, Pinned;
    var u, rest, tail := rows[index], rows[index..], rows[index + 1..];
    var shorter := rows[..index] + tail;
    assert rest == [u] + tail && rest[1..] == tail;
    assert shorter[..index] == rows[..index] && shorter[index..] == tail;
    assert rows[..index + 1] == rows[..index] + [u];
    PinnedCons(u, tail, origin, order);
  }

  lemma PinnedCons(u: Unknown, tail: seq<Unknown>, origin: Source, order: u64)
    ensures Pinned([u] + tail, origin, order) == ((OfOrder(u.proof, origin, order) && Unsettled(u))
             || Pinned(tail, origin, order))
  {
    hide OfOrder, Unsettled;
    var all := [u] + tail;
    if Pinned(tail, origin, order) {
      var i :| 0 <= i < |tail| && OfOrder(tail[i].proof, origin, order) && Unsettled(tail[i]);
      assert all[i + 1] == tail[i];
    }
    if OfOrder(u.proof, origin, order) && Unsettled(u) { assert all[0] == u; }
  }

  lemma AcceptedStep(rows: seq<DispatchProof>, index: nat, origin: Source, order: u64)
    requires index < |rows|
    ensures var shorter := rows[..index] + rows[index + 1..];
      if !OfOrder(rows[index], origin, order) then
        AcceptedFrom(rows, index + 1, origin, order) == AcceptedFrom(rows, index, origin, order)
      else AcceptedFrom(shorter, index, origin, order) == AcceptedFrom(rows, index, origin, order)
  {
    hide OfOrder;
    var p, rest, tail := rows[index], rows[index..], rows[index + 1..];
    var shorter := rows[..index] + tail;
    assert rest == [p] + tail && rest[1..] == tail;
    assert shorter[..index] == rows[..index] && shorter[index..] == tail;
    assert rows[..index + 1] == rows[..index] + [p];
  }
}
