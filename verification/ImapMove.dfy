/** Moving one message over an IMAP session that may refuse any command or lose the
    connection during it. */
module ImapMove {
  import opened Wrappers
  import opened MailStore
  import opened CopyUid

  /** How the client's IMAP library reports a failed command. */
  datatype ImapError = No | Bad | ConnectionLost

  /** A refusal is a tagged NO or BAD. */
  datatype Fate = Succeeds | Refuses(bad: bool) | Loses(applied: bool) {
    function error(): ImapError
      requires Refuses?
    {
      if bad then Bad else No
    }
  }

  /** How one server behaves, command by command. */
  datatype Server = Server(
    hasMove: bool,
    hasUidplus: bool,
    fate: nat -> Fate,
    reportsValidity: nat -> bool,
    receipt: (nat, nat, nat, nat) -> Option<CopyUidCode>,
    search: (nat, set<nat>) -> set<nat>,
    matches: (Body, string) -> bool)
  {
    /** A COPYUID of a one-message command names that message and the uid it got. */
    ghost predicate ConformingReceipts() {
      forall n: nat, validity: nat, u: nat, v: nat :: receipt(n, validity, u, v).Some? ==>
        var code := receipt(n, validity, u, v).value;
        code.uidValidity == validity && Meaning(code.sources) == [u] && Meaning(code.targets) == [v]
    }

    /** Every successful copy or move of a message is answered with a COPYUID. */
    ghost predicate AlwaysReports() {
      forall n: nat, validity: nat, u: nat, v: nat :: receipt(n, validity, u, v).Some?
    }

    ghost predicate NeverReports() {
      forall n: nat, validity: nat, u: nat, v: nat :: receipt(n, validity, u, v).None?
    }

    /** A search misses no matching message. */
    ghost predicate CompleteSearch() {
      forall n: nat, hits: set<nat> :: hits <= search(n, hits)
    }

    /** A search returns only matching messages. */
    ghost predicate SoundSearch() {
      forall n: nat, hits: set<nat> :: search(n, hits) <= hits
    }

    /** No command is refused or lost, and every mailbox reports its UIDVALIDITY. */
    ghost predicate Healthy() {
      forall n: nat :: fate(n) == Succeeds && reportsValidity(n)
    }
  }

  datatype ErrorCode =
    | SelectFailed | UidValidityChanged | CapabilityFailed | UidplusRequired | StoreFailed
    | MoveFailed | CopyFailed | ExpungeFailed | SearchFailed | UidMissing | UidAmbiguous
    | MoveTargetUidMissing

  /** An error with the three promises its details may carry. */
  datatype AppError = AppError(code: ErrorCode, callsNotStarted: bool, effectRejected: bool, effectCompleted: bool)

  function Plain(code: ErrorCode): AppError { AppError(code, false, false, false) }

  /** A tagged NO or BAD proves that the command had no effect. */
  function RejectedEffectError(code: ErrorCode, error: ImapError): AppError {
    AppError(code, false, error == No || error == Bad, false)
  }

  datatype Location = Location(mailbox: string, uidValidity: nat, uid: nat)

  datatype MoveOutcome = MoveOutcome(keywordSet: bool, seenSet: bool, moved: bool, target: Option<Location>)

  function EnsureExpectedUidValidity(expected: Option<nat>, actual: Option<nat>): Result<(), AppError> {
    if expected.None? || actual == expected then Ok(())
    else Err(AppError(UidValidityChanged, true, false, false))
  }

  ghost predicate Hit(server: Server, s: Store, box: string, u: nat, query: string) {
    Has(s, box, u) && server.matches(s[box].messages[u].body, query)
  }

  ghost function Hits(server: Server, s: Store, box: string, query: string): set<nat>
    requires box in s
  {
    set u | u in s[box].messages && server.matches(s[box].messages[u].body, query)
  }

  /** The result of a search that found these uids. */
  ghost predicate Answers(uids: set<nat>, box: string, validity: nat, r: Result<Location, AppError>) {
    if uids == {} then r == Err(Plain(UidMissing))
    else if exists u :: uids == {u} then r.Ok? && uids == {r.value.uid} && r.value == Location(box, validity, r.value.uid)
    else r == Err(Plain(UidAmbiguous))
  }

  /** A receipt is passed on when the server gives one, and none is made up. */
  ghost predicate PassesOn(server: Server, s0: Store, r: Option<Receipt>, from: string, u: nat, to: string) {
    && (server.AlwaysReports() && server.ConformingReceipts() && Has(s0, from, u) && to in s0 ==> r.Some?)
    && (server.NeverReports() ==> r.None?)
  }

  /** No message of the location's mailbox but the located one matches the query. */
  ghost predicate SearchSaw(server: Server, s: Store, l: Location, query: string) {
    forall u :: Hit(server, s, l.mailbox, u, query) ==> u == l.uid
  }

  class Session {
    const server: Server
    var store: Store
    var selected: Option<string>
    var clock: nat
    /** The store after every command sent so far. */
    ghost var history: seq<Store>

    constructor (server: Server, store: Store)
      ensures this.server == server && this.store == store && history == []
    {
      this.server, this.store, selected, clock, history := server, store, None, 0, [];
    }

    /** Send one command whose effect on the store would be `effect`. */
    method Command(effect: Store, possible: bool) returns (r: Result<(), ImapError>)
      modifies this
      ensures selected == old(selected) && history == old(history) + [store]
      ensures r.Ok? ==> possible && store == effect
      ensures r.Err? ==> store == old(store) || (store == effect && r.error == ConnectionLost)
      ensures server.Healthy() ==> (r.Ok? <==> possible)
      ensures server.fate(old(clock)).Refuses? ==> r == Err(server.fate(old(clock)).error())
      ensures clock == old(clock) + 1
    {
      var fate := server.fate(clock);
      clock := clock + 1;
      r := Ok(());
      if fate.Refuses? {
        r := Err(fate.error());
      } else if !possible {
        r := Err(No);
      } else if fate.Loses? {
        if fate.applied { store := effect; }
        r := Err(ConnectionLost);
      } else {
        store := effect;
      }
      history := history + [store];
    }

    /** SELECT or EXAMINE; the UIDVALIDITY of the mailbox may go unreported. */
    method Select(box: string) returns (r: Result<Option<nat>, ImapError>)
      modifies this
      ensures store == old(store) && history == old(history) + [store]
      ensures r.Ok? ==> selected == Some(box) && box in store
      ensures r.Ok? && r.value.Some? ==> r.value.value == store[box].uidValidity
      ensures r.Ok? && (forall n :: server.reportsValidity(n)) ==> r.value.Some?
      ensures server.Healthy() ==> (r.Ok? <==> box in store)
      ensures clock == old(clock) + 1
    {
      var reports := server.reportsValidity(clock);
      var done := Command(store, box in store);
      if done.Err? {
        selected := None;
        return Err(done.error);
      }
      selected := Some(box);
      return Ok(if reports then Some(store[box].uidValidity) else None);
    }

    method Capability(has: bool) returns (r: Result<bool, AppError>)
      modifies this
      ensures store == old(store) && selected == old(selected) && history == old(history) + [store]
      ensures r.Ok? ==> r.value == has
      ensures r.Err? ==> r.error == Plain(CapabilityFailed)
      ensures server.Healthy() ==> r.Ok?
    {
      var done := Command(store, true);
      return if done.Ok? then Ok(has) else Err(Plain(CapabilityFailed));
    }

    method UidStore(u: nat, flags: set<string>) returns (r: Result<(), ImapError>)
      modifies this
      ensures selected == old(selected) && history == old(history) + [store]
      ensures selected.Some? ==> store == old(store) || store == AddFlags(old(store), selected.value, u, flags)
      ensures r.Ok? ==> selected.Some? && store == AddFlags(old(store), selected.value, u, flags)
      ensures server.Healthy() && selected.Some? ==> r.Ok?
    {
      r := Command(if selected.Some? then AddFlags(store, selected.value, u, flags) else store, selected.Some?);
    }

    /** The receipt of a copy or move that was just done, read from the response. */
    method Receive(before: Store, u: nat, to: string, now: nat) returns (r: Option<Receipt>)
      ensures server.ConformingReceipts() && r.Some? ==>
                && selected.Some? && Has(before, selected.value, u) && to in before
                && r == Some(Receipt(before[to].uidValidity, [u], [before[to].uidNext]))
      ensures selected.Some? ==> PassesOn(server, before, r, selected.value, u, to)
    {
      if selected.Some? && Has(before, selected.value, u) && to in before {
        var code := server.receipt(now, before[to].uidValidity, u, before[to].uidNext);
        if code.Some? {
          if server.ConformingReceipts() {
            OneUidExpands(code.value.sources, u);
            OneUidExpands(code.value.targets, before[to].uidNext);
          }
          r := ExpandReceipt(code.value);
          return;
        }
      }
      return None;
    }

    method UidMoveWithReceipt(u: nat, to: string) returns (r: Result<Option<Receipt>, AppError>)
      requires selected.Some?
      modifies this
      ensures history == old(history) + [store] && selected == old(selected)
      ensures store == old(store) || store == Move(old(store), selected.value, u, to)
      ensures r.Ok? ==> to in store && store == Move(old(store), selected.value, u, to)
      ensures r.Ok? && r.value.Some? && server.ConformingReceipts() ==>
                && Has(old(store), selected.value, u) && to in old(store)
                && r.value.value == Receipt(old(store)[to].uidValidity, [u], [old(store)[to].uidNext])
      ensures r.Err? && r.error.effectRejected ==> store == old(store)
      ensures r.Err? ==> r.error.code == MoveFailed && !r.error.callsNotStarted && !r.error.effectCompleted
      ensures server.Healthy() && to in old(store) ==> r.Ok?
      ensures server.fate(old(clock)).Refuses? ==> r.Err? && r.error.effectRejected
      ensures r.Ok? ==> PassesOn(server, old(store), r.value, selected.value, u, to)
    {
      var before, now := store, clock;
      var done := Command(Move(store, selected.value, u, to), to in store);
      if done.Err? { return Err(RejectedEffectError(MoveFailed, done.error)); }
      var receipt := Receive(before, u, to, now);
      return Ok(receipt);
    }

    method UidCopyDeleteExpunge(u: nat, to: string) returns (r: Result<Option<Receipt>, AppError>)
      requires selected.Some? && selected.value != to
      modifies this
      ensures selected == old(selected) && old(history) <= history
      ensures forall k :: |old(history)| <= k < |history| ==> Midway(old(store), history[k], selected.value, u, to)
      ensures Midway(old(store), store, selected.value, u, to)
      ensures r.Ok? ==> to in store && store == Move(old(store), selected.value, u, to)
      ensures r.Ok? && r.value.Some? && server.ConformingReceipts() ==>
                && Has(old(store), selected.value, u) && to in old(store)
                && r.value.value == Receipt(old(store)[to].uidValidity, [u], [old(store)[to].uidNext])
      ensures r.Err? && r.error.effectRejected ==> store == old(store)
      ensures r.Err? ==> !r.error.callsNotStarted && !r.error.effectCompleted
      ensures r.Err? ==> r.error.code in {CopyFailed, StoreFailed, ExpungeFailed}
      ensures server.Healthy() && to in old(store) && server.hasUidplus ==> r.Ok?
      ensures server.fate(old(clock)).Refuses? ==> r.Err? && r.error.effectRejected && r.error.code == CopyFailed
      ensures r.Ok? ==> PassesOn(server, old(store), r.value, selected.value, u, to)
    {
      var from := selected.value;
      var before, now := store, clock;
      var copied := Command(Copy(store, from, u, to), to in store);
      if copied.Err? { return Err(RejectedEffectError(CopyFailed, copied.error)); }
      FallbackIsMove(before, from, u, to);
      var receipt := Receive(before, u, to, now);
      var flagged := UidStore(u, {DELETED});
      if flagged.Err? { return Err(Plain(StoreFailed)); }
      var expunged := Command(Expunge(store, from, u), server.hasUidplus);
      if expunged.Err? { return Err(Plain(ExpungeFailed)); }
      return Ok(receipt);
    }

    method FindUidByMessageId(box: string, messageId: string) returns (r: Result<Location, AppError>)
      modifies this
      ensures store == old(store) && old(history) <= history
      ensures forall k :: |old(history)| <= k < |history| ==> history[k] == store
      ensures r.Ok? ==> box in store && r.value.mailbox == box
      ensures r.Ok? && (forall n :: server.reportsValidity(n)) ==> r.value.uidValidity == store[box].uidValidity
      ensures r.Ok? && server.CompleteSearch() ==> SearchSaw(server, store, r.value, messageId)
      ensures r.Ok? && server.SoundSearch() ==> Hit(server, store, box, r.value.uid, messageId)
      ensures r.Err? && r.error.code == UidMissing && server.CompleteSearch() ==> forall u :: !Hit(server, store, box, u, messageId)
      ensures r.Err? && r.error.code == UidAmbiguous && server.SoundSearch() ==>
                exists u, v :: u != v && Hit(server, store, box, u, messageId) && Hit(server, store, box, v, messageId)
      ensures r.Err? ==> r.error == Plain(r.error.code) && r.error.code in {SelectFailed, SearchFailed, UidMissing, UidAmbiguous}
      ensures server.Healthy() && box in store ==>
                Answers(server.search(old(clock) + 1, Hits(server, store, box, messageId)), box, store[box].uidValidity, r)
    {
      var status := Select(box);
      if status.Err? { return Err(Plain(SelectFailed)); }
      var validity := if status.value.Some? then status.value.value else 0;
      var hits := set u | u in store[box].messages && server.matches(store[box].messages[u].body, messageId);
      assert hits == Hits(server, store, box, messageId);
      var uids := server.search(clock, hits);
      assert server.CompleteSearch() ==> hits <= uids;
      assert server.SoundSearch() ==> uids <= hits;
      assert forall u :: Hit(server, store, box, u, messageId) <==> u in hits;
      var done := Command(store, true);
      if done.Err? { return Err(Plain(SearchFailed)); }
      if uids == {} { return Err(Plain(UidMissing)); }
      var uid :| uid in uids;
      if uids != {uid} {
        ghost var other :| other in uids && other != uid;
        return Err(Plain(UidAmbiguous));
      }
      return Ok(Location(box, validity, uid));
    }
  }

  /** A store on the way of copy, flag deleted, expunge. */
  ghost predicate Midway(s0: Store, s: Store, from: string, u: nat, to: string) {
    || s == s0
    || (to in s0 && (s == Copy(s0, from, u, to)
                     || s == AddFlags(Copy(s0, from, u, to), from, u, {DELETED})
                     || s == Move(s0, from, u, to)))
  }

  lemma NoFlags(s: Store, box: string, u: nat)
    ensures AddFlags(s, box, u, {}) == s
  {
    if Has(s, box, u) {
      assert s[box].messages[u].flags + {} == s[box].messages[u].flags;
      assert s[box].messages[u := s[box].messages[u]] == s[box].messages;
    }
  }

  lemma MidwayConserves(s0: Store, flags: set<string>, s: Store, from: string, u: nat, to: string)
    requires WellFormed(s0) && from != to && Midway(AddFlags(s0, from, u, flags), s, from, u, to)
    ensures Conserved(s0, s, from, u, to)
  {
    var flagged := AddFlags(s0, from, u, flags);
    FlagsConserve(s0, from, u, to, flags);
    if to in s0 {
      MoveConserves(s0, from, u, to, flags);
      CopyConserves(s0, from, u, to, flags, {DELETED});
      CopyConserves(s0, from, u, to, flags, {});
      NoFlags(Copy(flagged, from, u, to), from, u);
    }
  }

  /** The flags a call may add before it moves anything. */
  ghost predicate Requested(flags: set<string>, markSeen: bool, keyword: Option<string>) {
    flags <= (if markSeen then {SEEN} else {}) + (if keyword.Some? then {keyword.value} else {})
  }

  /** The store after the flags and, when folders differ, the move. */
  ghost predicate Done(s0: Store, s: Store, flags: set<string>, from: string, u: nat, to: string) {
    s == if from == to then AddFlags(s0, from, u, flags) else Move(AddFlags(s0, from, u, flags), from, u, to)
  }

  /** The call's location of the message, when it gives one, is the message's own. */
  ghost predicate Names(s0: Store, s: Store, l: Location, from: string, u: nat, to: string) {
    && l.mailbox == to && to in s0 && Has(s, to, l.uid) && Has(s0, from, u)
    && l.uid == (if from == to then u else s0[to].uidNext)
    && s[to].messages[l.uid].body == s0[from].messages[u].body
  }

  /** The mailbox is the one the uid belongs to. */
  ghost predicate Current(s: Store, box: string, expected: Option<nat>) {
    expected.Some? ==> box in s && s[box].uidValidity == expected.value
  }

  /** What must hold before the call changes anything. */
  ghost predicate MayStart(server: Server, s: Store, source: string, expected: Option<nat>, moved: bool) {
    Current(s, source, expected) && (moved ==> server.hasMove || server.hasUidplus)
  }

  /** The same messages are where they were. */
  ghost predicate SamePlaces(s0: Store, s: Store) {
    s.Keys == s0.Keys && forall box :: box in s0 ==> s[box].messages.Keys == s0[box].messages.Keys
  }

  /** While the message is still in the source, nothing has been added to the target. */
  ghost predicate NeverTwice(s0: Store, s: Store, from: string, u: nat, to: string) {
    SamePlaces(s0, s) || !Has(s, from, u)
  }

  /** Nothing but this message changed and this message still exists; nothing changed before
      the UIDVALIDITY and a way to move were sure; and with MOVE the message is never in both
      folders. */
  ghost predicate Careful(server: Server, s0: Store, s: Store, source: string, expected: Option<nat>, uid: nat, target: string) {
    && Conserved(s0, s, source, uid, target)
    && (s != s0 ==> MayStart(server, s0, source, expected, source != target))
    && (server.hasMove ==> NeverTwice(s0, s, source, uid, target))
  }

  lemma UntouchedIsCareful(server: Server, s0: Store, source: string, expected: Option<nat>, uid: nat, target: string)
    ensures Careful(server, s0, s0, source, expected, uid, target)
  {
    NoFlags(s0, source, uid);
    FlagsConserve(s0, source, uid, target, {});
  }

  /** Select, check the UIDVALIDITY and find a way to move; nothing is changed yet. */
  method Prepare(session: Session, source: string, expected: Option<nat>, moved: bool) returns (r: Result<bool, AppError>)
    modifies session
    ensures session.store == old(session.store) && old(session.history) <= session.history
    ensures forall k :: |old(session.history)| <= k < |session.history| ==> session.history[k] == session.store
    ensures r.Ok? ==> session.selected == Some(source) && MayStart(session.server, session.store, source, expected, moved)
    ensures r.Ok? ==> r.value == (moved && session.server.hasMove)
    ensures session.server.Healthy() && source in session.store ==>
              if !Current(session.store, source, expected) then r.Err? && r.error.code == UidValidityChanged
              else if moved && !session.server.hasMove && !session.server.hasUidplus then r.Err? && r.error.code == UidplusRequired
              else r.Ok?
    ensures r.Err? ==> !r.error.effectRejected && !r.error.effectCompleted
    ensures r.Err? && r.error.code in {UidValidityChanged, UidplusRequired} ==> r.error.callsNotStarted
  {
    var status := session.Select(source);
    if status.Err? { return Err(Plain(SelectFailed)); }
    var check := EnsureExpectedUidValidity(expected, status.value);
    if check.Err? { return Err(check.error); }
    if !moved { return Ok(false); }
    var hasMove := session.Capability(session.server.hasMove);
    if hasMove.Err? { return Err(hasMove.error); }
    if hasMove.value { return Ok(true); }
    var hasUidplus := session.Capability(session.server.hasUidplus);
    if hasUidplus.Err? { return Err(hasUidplus.error); }
    if !hasUidplus.value { return Err(AppError(UidplusRequired, true, false, false)); }
    return Ok(false);
  }

  lemma FlagsKeepPlaces(s0: Store, box: string, u: nat, flags: set<string>)
    ensures SamePlaces(s0, AddFlags(s0, box, u, flags))
  {
    if Has(s0, box, u) { assert AddFlags(s0, box, u, flags)[box].messages.Keys == s0[box].messages.Keys; }
  }

  /** One STORE on top of flags added before. */
  method AddFlag(session: Session, source: string, uid: nat, flag: string, ghost s0: Store, ghost before: set<string>, ghost target: string)
    returns (r: Result<(), ImapError>, ghost flags: set<string>)
    requires session.selected == Some(source) && session.store == AddFlags(s0, source, uid, before)
    modifies session
    ensures session.selected == Some(source) && session.history == old(session.history) + [session.store]
    ensures session.store == AddFlags(s0, source, uid, flags) && before <= flags <= before + {flag}
    ensures Conserved(s0, session.store, source, uid, target) && SamePlaces(s0, session.store)
    ensures r.Ok? ==> flag in flags
    ensures session.server.Healthy() ==> r.Ok?
  {
    FlagsTwice(s0, source, uid, before, {flag});
    r := session.UidStore(uid, {flag});
    flags := if r.Ok? || session.store == AddFlags(s0, source, uid, before + {flag}) then before + {flag} else before;
    FlagsConserve(s0, source, uid, target, flags);
    FlagsKeepPlaces(s0, source, uid, flags);
  }

  /** Mark seen, which must work, and set the keyword, which may fail. */
  method SetFlags(session: Session, source: string, uid: nat, markSeen: bool, keyword: Option<string>, ghost target: string)
    returns (r: Result<bool, AppError>, ghost flags: set<string>)
    requires session.selected == Some(source)
    modifies session
    ensures session.selected == Some(source) && old(session.history) <= session.history
    ensures forall k :: |old(session.history)| <= k < |session.history| ==>
              Conserved(old(session.store), session.history[k], source, uid, target) && SamePlaces(old(session.store), session.history[k])
    ensures session.store == AddFlags(old(session.store), source, uid, flags) && Requested(flags, markSeen, keyword)
    ensures r.Ok? && markSeen ==> SEEN in flags
    ensures r.Ok? && r.value ==> keyword.Some? && keyword.value in flags
    ensures r.Err? ==> r.error == Plain(StoreFailed)
    ensures session.server.Healthy() ==> r == Ok(keyword.Some?)
  {
    ghost var s0 := session.store;
    NoFlags(s0, source, uid);
    flags := {};
    if markSeen {
      var seen;
      seen, flags := AddFlag(session, source, uid, SEEN, s0, flags, target);
      if seen.Err? { return Err(Plain(StoreFailed)), flags; }
    }
    r := Ok(false);
    if keyword.Some? {
      var stored;
      stored, flags := AddFlag(session, source, uid, keyword.value, s0, flags, target);
      r := Ok(stored.Ok?);
    }
  }

  /** What the caller is told after a search that found these uids: a unique hit is the
      location; none or several are an error, after a move one that says that the move was
      completed. */
  ghost predicate Reported(uids: set<nat>, box: string, validity: nat, moved: bool, r: Result<Option<Location>, AppError>) {
    if exists u :: uids == {u} then
      r.Ok? && r.value.Some? && uids == {r.value.value.uid} && r.value.value == Location(box, validity, r.value.value.uid)
    else if moved then r == Err(AppError(MoveTargetUidMissing, false, false, true))
    else r == Err(Plain(if uids == {} then UidMissing else UidAmbiguous))
  }

  /** The receipt decides where the message went; without a usable one, a search does. */
  method Locate(session: Session, uid: nat, target: string, receipt: Option<Receipt>, messageId: Option<string>, moved: bool)
    returns (r: Result<Option<Location>, AppError>)
    modifies session
    ensures session.store == old(session.store) && old(session.history) <= session.history
    ensures forall k :: |old(session.history)| <= k < |session.history| ==> session.history[k] == session.store
    ensures r.Ok? && r.value.Some? ==>
              if receipt.Some? && receipt.value.TargetFor(uid).Some? then
                r.value == Some(Location(target, receipt.value.uidValidity, receipt.value.TargetFor(uid).value))
              else
                && messageId.Some? && target in session.store && r.value.value.mailbox == target
                && ((forall n :: session.server.reportsValidity(n)) ==> r.value.value.uidValidity == session.store[target].uidValidity)
                && (session.server.CompleteSearch() ==> SearchSaw(session.server, session.store, r.value.value, messageId.value))
    ensures r.Err? ==> !r.error.callsNotStarted && !r.error.effectRejected && (r.error.effectCompleted ==> moved)
    ensures r.Err? ==> r.error.code !in {UidValidityChanged, UidplusRequired}
    ensures receipt.Some? && receipt.value.TargetFor(uid).Some? ==>
              r == Ok(Some(Location(target, receipt.value.uidValidity, receipt.value.TargetFor(uid).value)))
    ensures r.Ok? && messageId.Some? ==> r.value.Some?
    ensures (receipt.None? || receipt.value.TargetFor(uid).None?) && messageId.None? ==> r == Ok(None)
    ensures session.server.Healthy() && target in session.store && messageId.Some?
              && (receipt.None? || receipt.value.TargetFor(uid).None?) ==>
              Reported(session.server.search(old(session.clock) + 1, Hits(session.server, session.store, target, messageId.value)),
                       target, session.store[target].uidValidity, moved, r)
  {
    if receipt.Some? {
      var found := receipt.value.TargetFor(uid);
      if found.Some? { return Ok(Some(Location(target, receipt.value.uidValidity, found.value))); }
    }
    if messageId.None? { return Ok(None); }
    var location := session.FindUidByMessageId(target, messageId.value);
    if location.Ok? { return Ok(Some(location.value)); }
    if moved && (location.error.code == UidMissing || location.error.code == UidAmbiguous) {
      return Err(AppError(MoveTargetUidMissing, false, false, true));
    }
    return Err(location.error);
  }

  /** Move by MOVE, or by copy, flag deleted and expunge. */
  method Relocate(session: Session, source: string, uid: nat, target: string, moveSupported: bool)
    returns (r: Result<Option<Receipt>, AppError>)
    requires session.selected == Some(source) && source != target
    modifies session
    ensures old(session.history) <= session.history
    ensures forall k :: |old(session.history)| <= k < |session.history| ==>
              Midway(old(session.store), session.history[k], source, uid, target)
    ensures Midway(old(session.store), session.store, source, uid, target)
    ensures r.Ok? ==> target in session.store && session.store == Move(old(session.store), source, uid, target)
    ensures r.Ok? && r.value.Some? && session.server.ConformingReceipts() ==>
              && Has(old(session.store), source, uid) && target in old(session.store)
              && r.value.value == Receipt(old(session.store)[target].uidValidity, [uid], [old(session.store)[target].uidNext])
    ensures r.Err? && r.error.effectRejected ==> session.store == old(session.store)
    ensures r.Err? ==> !r.error.callsNotStarted && !r.error.effectCompleted
    ensures r.Err? ==> r.error.code in {MoveFailed, CopyFailed, StoreFailed, ExpungeFailed}
    ensures moveSupported ==> forall k :: |old(session.history)| <= k < |session.history| ==>
              session.history[k] in {old(session.store), Move(old(session.store), source, uid, target)}
    ensures moveSupported ==> session.store in {old(session.store), Move(old(session.store), source, uid, target)}
    ensures session.server.Healthy() && target in old(session.store) && (moveSupported || session.server.hasUidplus) ==> r.Ok?
    ensures r.Ok? ==> PassesOn(session.server, old(session.store), r.value, source, uid, target)
  {
    if moveSupported {
      r := session.UidMoveWithReceipt(uid, target);
    } else {
      r := session.UidCopyDeleteExpunge(uid, target);
    }
  }

  /** After the move the target's newest message is the moved one. */
  lemma MoveNames(s0: Store, flags: set<string>, from: string, u: nat, to: string)
    requires WellFormed(s0) && from != to && Has(s0, from, u)
    ensures var s := Move(AddFlags(s0, from, u, flags), from, u, to);
            to in s0 ==> forall validity: nat :: Names(s0, s, Location(to, validity, s0[to].uidNext), from, u, to)
  {
  }

  /** A matching message that nothing else matches is the one a search finds. */
  lemma SearchNames(s0: Store, s: Store, flags: set<string>, server: Server, l: Location, query: string,
                    from: string, u: nat, to: string)
    requires WellFormed(s0) && Has(s0, from, u) && Done(s0, s, flags, from, u, to) && to in s
    requires l.mailbox == to && SearchSaw(server, s, l, query) && server.matches(s0[from].messages[u].body, query)
    ensures Names(s0, s, l, from, u, to)
  {
    if from == to {
      assert Hit(server, s, to, u, query);
    } else {
      MoveNames(s0, flags, from, u, to);
      assert Names(s0, s, Location(to, 0, s0[to].uidNext), from, u, to);
      assert Hit(server, s, to, s0[to].uidNext, query);
    }
  }

  /** With a search that is also sound, a unique hit is the message exactly when the message
      carries the Message-ID searched for. */
  lemma UniqueHitIsMessage(s0: Store, s: Store, flags: set<string>, server: Server, l: Location, query: string,
                           from: string, u: nat, to: string)
    requires WellFormed(s0) && Has(s0, from, u) && Done(s0, s, flags, from, u, to) && to in s
    requires l.mailbox == to && SearchSaw(server, s, l, query)
    requires Has(s, to, l.uid) && server.matches(s[to].messages[l.uid].body, query)
    ensures Names(s0, s, l, from, u, to) <==> server.matches(s0[from].messages[u].body, query)
  {
    if server.matches(s0[from].messages[u].body, query) {
      SearchNames(s0, s, flags, server, l, query, from, u, to);
    }
  }

  /** Where the call puts the message when nothing is refused or lost: under the uid of the
      COPYUID if the server sends one; if it sends none, at the only search hit, with an error
      for no hit or several; and nowhere if there is nothing to search for. */
  ghost predicate Found(server: Server, s0: Store, s: Store, messageId: Option<string>, from: string, u: nat, to: string,
                        t: Result<Option<Location>, AppError>)
    requires to in s
  {
    && (from != to && to in s0 && Has(s0, from, u) && server.AlwaysReports() && server.ConformingReceipts() ==>
          t == Ok(Some(Location(to, s0[to].uidValidity, s0[to].uidNext))))
    && (from == to || server.NeverReports() ==>
          && (messageId.None? ==> t == Ok(None))
          && (messageId.Some? && server.CompleteSearch() && server.SoundSearch() ==>
                Reported(Hits(server, s, to, messageId.value), to, s[to].uidValidity, from != to, t)))
  }

  /** Where the message is after the move, if that can be said. */
  method Pinpoint(session: Session, source: string, uid: nat, target: string, receipt: Option<Receipt>, messageId: Option<string>,
                  ghost s0: Store, ghost flags: set<string>)
    returns (r: Result<Option<Location>, AppError>)
    requires WellFormed(s0) && Done(s0, session.store, flags, source, uid, target)
    requires receipt.Some? && session.server.ConformingReceipts() ==> Proves(s0, receipt.value, source, uid, target)
    requires if source == target then receipt == None else PassesOn(session.server, s0, receipt, source, uid, target)
    modifies session
    ensures session.store == old(session.store) && old(session.history) <= session.history
    ensures forall k :: |old(session.history)| <= k < |session.history| ==> session.history[k] == session.store
    ensures r.Ok? && r.value.Some? && Has(s0, source, uid)
              && session.server.ConformingReceipts() && session.server.CompleteSearch()
              && (messageId.Some? ==> session.server.matches(s0[source].messages[uid].body, messageId.value))
            ==> Names(s0, session.store, r.value.value, source, uid, target)
    ensures r.Ok? && r.value.Some? && (forall n :: session.server.reportsValidity(n)) && session.server.ConformingReceipts()
            ==> target in session.store && r.value.value.uidValidity == session.store[target].uidValidity
    ensures r.Err? ==> !r.error.callsNotStarted && !r.error.effectRejected && (r.error.effectCompleted ==> source != target)
    ensures r.Err? ==> r.error.code !in {UidValidityChanged, UidplusRequired}
    ensures r.Ok? && messageId.Some? ==> r.value.Some?
    ensures session.server.Healthy() && target in session.store ==>
              && Found(session.server, s0, session.store, messageId, source, uid, target, r)
              && (r.Err? ==> messageId.Some? && r.error.code in (if source != target then {MoveTargetUidMissing} else {UidMissing, UidAmbiguous}))
  {
    if receipt.Some? && Proves(s0, receipt.value, source, uid, target) {
      OnePair(receipt.value.uidValidity, uid, s0[target].uidNext);
    }
    r := Locate(session, uid, target, receipt, messageId, source != target);
    if r.Ok? && r.value.Some? {
      LocationIsTrue(s0, session.store, flags, session.server, r.value.value, receipt, messageId, source, uid, target);
    }
  }

  function TargetOf(r: Result<MoveOutcome, AppError>): Result<Option<Location>, AppError> {
    match r
    case Ok(outcome) => Ok(outcome.target)
    case Err(e) => Err(e)
  }

  /** Everything after the preparation: flags, move, and the location. */
  method MoveAndPlace(session: Session, source: string, uid: nat, target: string, moveSupported: bool,
                      messageId: Option<string>, markSeen: bool, keyword: Option<string>)
    returns (r: Result<MoveOutcome, AppError>, ghost flags: set<string>)
    requires WellFormed(session.store) && session.selected == Some(source)
    modifies session
    ensures old(session.history) <= session.history
    ensures forall k :: |old(session.history)| <= k < |session.history| ==>
              Conserved(old(session.store), session.history[k], source, uid, target)
    ensures Conserved(old(session.store), session.store, source, uid, target)
    ensures moveSupported || source == target ==> NeverTwice(old(session.store), session.store, source, uid, target)
    ensures moveSupported || source == target ==> forall k :: |old(session.history)| <= k < |session.history| ==>
              NeverTwice(old(session.store), session.history[k], source, uid, target)
    ensures Requested(flags, markSeen, keyword)
    ensures r.Ok? ==>
              && (markSeen ==> SEEN in flags)
              && (r.value.keywordSet ==> keyword.Some? && keyword.value in flags)
              && Done(old(session.store), session.store, flags, source, uid, target)
    ensures r.Ok? ==> r.value.moved == (source != target) && r.value.seenSet == markSeen
    ensures r.Err? ==> !r.error.callsNotStarted && r.error.code !in {UidValidityChanged, UidplusRequired}
    ensures r.Err? && r.error.effectRejected ==> session.store == AddFlags(old(session.store), source, uid, flags)
    ensures r.Err? && r.error.effectCompleted ==>
              source != target && Done(old(session.store), session.store, flags, source, uid, target)
    ensures r.Ok? && messageId.Some? ==> r.value.target.Some?
    ensures session.server.Healthy() && source in old(session.store)
              && (source != target ==> target in old(session.store) && (moveSupported || session.server.hasUidplus))
            ==>
              && target in session.store
              && Found(session.server, old(session.store), session.store, messageId, source, uid, target, TargetOf(r))
              && if r.Ok? then r.value.keywordSet == keyword.Some?
                 else messageId.Some? && r.error.code in (if source != target then {MoveTargetUidMissing} else {UidMissing, UidAmbiguous})
    ensures r.Ok? && r.value.target.Some? && Has(old(session.store), source, uid)
              && session.server.ConformingReceipts() && session.server.CompleteSearch()
              && (messageId.Some? ==> session.server.matches(old(session.store)[source].messages[uid].body, messageId.value))
            ==> Names(old(session.store), session.store, r.value.target.value, source, uid, target)
    ensures r.Ok? && r.value.target.Some? && (forall n :: session.server.reportsValidity(n))
              && session.server.ConformingReceipts()
            ==> target in session.store && r.value.target.value.uidValidity == session.store[target].uidValidity
  {
    ghost var s0 := session.store;
    var carried;
    carried, flags := FlagAndMove(session, source, uid, target, moveSupported, markSeen, keyword);
    if carried.Err? { return Err(carried.error), flags; }
    var location := Pinpoint(session, source, uid, target, carried.value.receipt, messageId, s0, flags);
    if location.Err? { return Err(location.error), flags; }
    return Ok(MoveOutcome(carried.value.keywordSet, markSeen, source != target, location.value)), flags;
  }

  /** The whole call: find a way, set flags, move, and say where the message went. */
  method UidMarkAndMove(session: Session, source: string, expected: Option<nat>, uid: nat, target: string,
                        messageId: Option<string>, markSeen: bool, keyword: Option<string>)
    returns (r: Result<MoveOutcome, AppError>, ghost flags: set<string>)
    requires WellFormed(session.store)
    modifies session
    // after every command, whatever was refused or lost
    ensures old(session.history) <= session.history
    ensures forall k :: |old(session.history)| <= k < |session.history| ==>
              Careful(session.server, old(session.store), session.history[k], source, expected, uid, target)
    ensures Careful(session.server, old(session.store), session.store, source, expected, uid, target)
    // on a server that refuses and loses nothing, only a stale uid, a missing capability or
    // a search without one hit stands in the way
    ensures session.server.Healthy() && source in old(session.store) && (source != target ==> target in old(session.store)) ==>
              if !Current(old(session.store), source, expected) then r.Err? && r.error.code == UidValidityChanged
              else if source != target && !session.server.hasMove && !session.server.hasUidplus then
                r.Err? && r.error.code == UidplusRequired
              else if r.Ok? then r.value.keywordSet == keyword.Some?
              else messageId.Some? && r.error.code in (if source != target then {MoveTargetUidMissing} else {UidMissing, UidAmbiguous})
    // and then the call says where the message is
    ensures r.Ok? && messageId.Some? ==> r.value.target.Some?
    ensures session.server.Healthy() && source in old(session.store) && (source != target ==> target in old(session.store))
              && MayStart(session.server, old(session.store), source, expected, source != target)
            ==> target in session.store && Found(session.server, old(session.store), session.store, messageId, source, uid, target, TargetOf(r))
    // success: the flags and the move, the same store by either path
    ensures Requested(flags, markSeen, keyword)
    ensures r.Ok? ==>
              && (markSeen ==> SEEN in flags)
              && (r.value.keywordSet ==> keyword.Some? && keyword.value in flags)
              && Done(old(session.store), session.store, flags, source, uid, target)
    ensures r.Ok? ==> r.value.moved == (source != target) && r.value.seenSet == markSeen
    // what an error promises
    ensures r.Err? && r.error.callsNotStarted ==> session.store == old(session.store)
    ensures r.Err? && r.error.code in {UidValidityChanged, UidplusRequired} ==> r.error.callsNotStarted
    ensures r.Err? && r.error.effectRejected ==> session.store == AddFlags(old(session.store), source, uid, flags)
    ensures r.Err? && r.error.effectCompleted ==>
              source != target && Done(old(session.store), session.store, flags, source, uid, target)
    // where the message is now
    ensures r.Ok? && r.value.target.Some? && Has(old(session.store), source, uid)
              && session.server.ConformingReceipts() && session.server.CompleteSearch()
              && (messageId.Some? ==> session.server.matches(old(session.store)[source].messages[uid].body, messageId.value))
            ==> Names(old(session.store), session.store, r.value.target.value, source, uid, target)
    ensures r.Ok? && r.value.target.Some? && (forall n :: session.server.reportsValidity(n))
              && session.server.ConformingReceipts()
            ==> target in session.store && r.value.target.value.uidValidity == session.store[target].uidValidity
  {
    ghost var s0 := session.store;
    UntouchedIsCareful(session.server, s0, source, expected, uid, target);
    var prepared := Prepare(session, source, expected, source != target);
    flags := {};
    if prepared.Err? { return Err(prepared.error), flags; }
    r, flags := MoveAndPlace(session, source, uid, target, prepared.value, messageId, markSeen, keyword);
  }

  /** What a receipt must say to be about this move. */
  ghost predicate Proves(s0: Store, receipt: Receipt, from: string, u: nat, to: string) {
    && from != to && Has(s0, from, u) && to in s0
    && receipt == Receipt(s0[to].uidValidity, [u], [s0[to].uidNext])
  }

  /** A location from a proving receipt, or from a search that missed nothing for a
      Message-ID the message carries, is the message's own. */
  lemma LocationIsTrue(s0: Store, s: Store, flags: set<string>, server: Server, l: Location, receipt: Option<Receipt>,
                       messageId: Option<string>, from: string, u: nat, to: string)
    requires WellFormed(s0) && Done(s0, s, flags, from, u, to) && l.mailbox == to
    requires receipt.Some? && server.ConformingReceipts() ==> Proves(s0, receipt.value, from, u, to)
    requires if receipt.Some? && receipt.value.TargetFor(u).Some? then
               l == Location(to, receipt.value.uidValidity, receipt.value.TargetFor(u).value)
             else
               messageId.Some? && to in s && (server.CompleteSearch() ==> SearchSaw(server, s, l, messageId.value))
    ensures Has(s0, from, u) && server.ConformingReceipts() && server.CompleteSearch()
              && (messageId.Some? ==> server.matches(s0[from].messages[u].body, messageId.value))
            ==> Names(s0, s, l, from, u, to)
    ensures receipt.Some? && server.ConformingReceipts() ==> to in s && l.uidValidity == s[to].uidValidity
  {
    if receipt.Some? && server.ConformingReceipts() {
      OnePair(receipt.value.uidValidity, u, s0[to].uidNext);
      MoveNames(s0, flags, from, u, to);
    } else if Has(s0, from, u) && server.CompleteSearch() && messageId.Some? && to in s
              && SearchSaw(server, s, l, messageId.value) && server.matches(s0[from].messages[u].body, messageId.value) {
      SearchNames(s0, s, flags, server, l, messageId.value, from, u, to);
    }
  }

  datatype Carried = Carried(keywordSet: bool, receipt: Option<Receipt>)

  lemma MoveIsNeverTwice(s0: Store, flags: set<string>, s: Store, from: string, u: nat, to: string)
    requires WellFormed(s0) && from != to
    requires s in {AddFlags(s0, from, u, flags), Move(AddFlags(s0, from, u, flags), from, u, to)}
    ensures NeverTwice(s0, s, from, u, to)
  {
  }

  /** Both predicates, for a store on the way from the flagged one. */
  lemma OnTheWay(s0: Store, flags: set<string>, s: Store, from: string, u: nat, to: string)
    requires WellFormed(s0) && from != to && Midway(AddFlags(s0, from, u, flags), s, from, u, to)
    ensures Conserved(s0, s, from, u, to)
    ensures s in {AddFlags(s0, from, u, flags), Move(AddFlags(s0, from, u, flags), from, u, to)} ==> NeverTwice(s0, s, from, u, to)
  {
    MidwayConserves(s0, flags, s, from, u, to);
    if s in {AddFlags(s0, from, u, flags), Move(AddFlags(s0, from, u, flags), from, u, to)} {
      MoveIsNeverTwice(s0, flags, s, from, u, to);
    }
  }

  lemma FlaggedReceipt(s0: Store, flags: set<string>, receipt: Receipt, from: string, u: nat, to: string)
    requires from != to
    requires var s := AddFlags(s0, from, u, flags);
             Has(s, from, u) && to in s && receipt == Receipt(s[to].uidValidity, [u], [s[to].uidNext])
    ensures Proves(s0, receipt, from, u, to)
  {
  }

  /** The move of a message whose flags were just set. */
  method Transfer(session: Session, source: string, uid: nat, target: string, moveSupported: bool, ghost s0: Store, ghost flags: set<string>)
    returns (r: Result<Option<Receipt>, AppError>)
    requires WellFormed(s0) && source != target && session.selected == Some(source)
    requires session.store == AddFlags(s0, source, uid, flags)
    modifies session
    ensures old(session.history) <= session.history
    ensures forall k :: |old(session.history)| <= k < |session.history| ==>
              Conserved(s0, session.history[k], source, uid, target)
              && (moveSupported ==> NeverTwice(s0, session.history[k], source, uid, target))
    ensures Conserved(s0, session.store, source, uid, target)
    ensures moveSupported ==> NeverTwice(s0, session.store, source, uid, target)
    ensures r.Ok? ==> Done(s0, session.store, flags, source, uid, target)
    ensures r.Ok? && r.value.Some? && session.server.ConformingReceipts() ==> Proves(s0, r.value.value, source, uid, target)
    ensures r.Err? ==> !r.error.callsNotStarted && !r.error.effectCompleted
    ensures r.Err? ==> r.error.code in {StoreFailed, MoveFailed, CopyFailed, ExpungeFailed}
    ensures r.Err? && r.error.effectRejected ==> session.store == old(session.store)
    ensures session.server.Healthy() && target in s0 && (moveSupported || session.server.hasUidplus) ==> r.Ok?
    ensures r.Ok? ==> PassesOn(session.server, s0, r.value, source, uid, target)
  {
    r := Relocate(session, source, uid, target, moveSupported);
    if r.Ok? && r.value.Some? && session.server.ConformingReceipts() {
      FlaggedReceipt(s0, flags, r.value.value, source, uid, target);
    }
    OnTheWay(s0, flags, session.store, source, uid, target);
    forall k | |old(session.history)| <= k < |session.history|
      ensures Conserved(s0, session.history[k], source, uid, target)
              && (moveSupported ==> NeverTwice(s0, session.history[k], source, uid, target))
    {
      OnTheWay(s0, flags, session.history[k], source, uid, target);
    }
  }

  /** The flags, then the move if there is one. */
  method FlagAndMove(session: Session, source: string, uid: nat, target: string, moveSupported: bool, markSeen: bool,
                     keyword: Option<string>)
    returns (r: Result<Carried, AppError>, ghost flags: set<string>)
    requires WellFormed(session.store) && session.selected == Some(source)
    modifies session
    ensures old(session.history) <= session.history
    ensures forall k :: |old(session.history)| <= k < |session.history| ==>
              Conserved(old(session.store), session.history[k], source, uid, target)
    ensures Conserved(old(session.store), session.store, source, uid, target)
    ensures moveSupported || source == target ==> NeverTwice(old(session.store), session.store, source, uid, target)
    ensures moveSupported || source == target ==> forall k :: |old(session.history)| <= k < |session.history| ==>
              NeverTwice(old(session.store), session.history[k], source, uid, target)
    ensures Requested(flags, markSeen, keyword)
    ensures r.Ok? ==>
              && Done(old(session.store), session.store, flags, source, uid, target) && (markSeen ==> SEEN in flags)
              && (r.value.keywordSet ==> keyword.Some? && keyword.value in flags)
    ensures r.Ok? && r.value.receipt.Some? && session.server.ConformingReceipts() ==>
              Proves(old(session.store), r.value.receipt.value, source, uid, target)
    ensures r.Err? ==> !r.error.callsNotStarted && !r.error.effectCompleted
    ensures r.Err? ==> r.error.code in {StoreFailed, MoveFailed, CopyFailed, ExpungeFailed}
    ensures r.Err? && r.error.effectRejected ==> session.store == AddFlags(old(session.store), source, uid, flags)
    ensures session.server.Healthy() && (source != target ==> target in old(session.store) && (moveSupported || session.server.hasUidplus))
            ==> r.Ok? && r.value.keywordSet == keyword.Some?
    ensures r.Ok? ==> if source == target then r.value.receipt == None
                      else PassesOn(session.server, old(session.store), r.value.receipt, source, uid, target)
  {
    ghost var s0 := session.store;
    var keywordSet;
    keywordSet, flags := SetFlags(session, source, uid, markSeen, keyword, target);
    FlagsConserve(s0, source, uid, target, flags);
    if keywordSet.Err? { return Err(keywordSet.error), flags; }
    if source == target { return Ok(Carried(keywordSet.value, None)), flags; }
    var receipt := Transfer(session, source, uid, target, moveSupported, s0, flags);
    if receipt.Err? { return Err(receipt.error), flags; }
    return Ok(Carried(keywordSet.value, receipt.value)), flags;
  }

  lemma OnePair(validity: nat, u: nat, v: nat)
    ensures Receipt(validity, [u], [v]).TargetFor(u) == Some(v)
  {
    var r := Receipt(validity, [u], [v]);
    assert r.MapsOnce(u, 0);
    r.TargetForIs(u, v);
  }

  /** A moved message without a Message-ID, a target that holds another message with the one
      searched for, a complete and sound search: the unique hit is the other message. */
  lemma UniqueHitIsAnother()
    ensures var plain, other := Message(Body([1], None), {}), Message(Body([2], Some("id")), {});
            var s0 := map["in" := Mailbox(1, 8, map[7 := plain]), "out" := Mailbox(1, 6, map[5 := other])];
            var server := Server(true, true, _ => Succeeds, _ => true, (_, _, _, _) => None, (_, hits) => hits,
                                 (b: Body, query) => b.messageId == Some(query));
            var s := Move(s0, "in", 7, "out");
            && WellFormed(s0) && Has(s0, "in", 7) && server.CompleteSearch() && server.SoundSearch()
            && Done(s0, s, {}, "in", 7, "out") && SearchSaw(server, s, Location("out", 1, 5), "id")
            && Hit(server, s, "out", 5, "id") && !Names(s0, s, Location("out", 1, 5), "in", 7, "out")
  {
    var plain, other := Message(Body([1], None), {}), Message(Body([2], Some("id")), {});
    var s0 := map["in" := Mailbox(1, 8, map[7 := plain]), "out" := Mailbox(1, 6, map[5 := other])];
    assert "in" != "out" by { assert |"in"| == 2 && |"out"| == 3; }
    NoFlags(s0, "in", 7);
    assert s0["in"].messages[7] == plain && s0["out"].messages[5] == other;
  }
}
