/** A mail store as a server keeps it, and the effect of the commands a move uses. */
module MailStore {
  import opened Wrappers

  const DELETED := "\\Deleted"
  const SEEN := "\\Seen"

  /** A message's content; its Message-ID header is part of it. */
  datatype Body = Body(bytes: seq<bv8>, messageId: Option<string>)

  datatype Message = Message(body: Body, flags: set<string>)

  /** Uids are handed out once, in increasing order, per UIDVALIDITY. */
  datatype Mailbox = Mailbox(uidValidity: nat, uidNext: nat, messages: map<nat, Message>)

  type Store = map<string, Mailbox>

  ghost predicate WellFormed(s: Store) {
    forall box, u :: box in s && u in s[box].messages ==> u < s[box].uidNext
  }

  predicate Has(s: Store, box: string, u: nat) { box in s && u in s[box].messages }

  function SetMessage(s: Store, box: string, u: nat, m: Message): Store
    requires box in s
  {
    s[box := s[box].(messages := s[box].messages[u := m])]
  }

  /** UID STORE +FLAGS on one uid; an absent uid is no error and changes nothing. */
  function AddFlags(s: Store, box: string, u: nat, flags: set<string>): Store {
    if Has(s, box, u) then
      var m := s[box].messages[u];
      SetMessage(s, box, u, m.(flags := m.flags + flags))
    else s
  }

  /** A message arrives in a mailbox under its next uid. */
  function Append(s: Store, box: string, m: Message): Store
    requires box in s
  {
    s[box := Mailbox(s[box].uidValidity, s[box].uidNext + 1, s[box].messages[s[box].uidNext := m])]
  }

  function Remove(s: Store, box: string, u: nat): Store
    requires box in s
  {
    s[box := s[box].(messages := s[box].messages - {u})]
  }

  /** UID COPY of one uid (section 6.4.7 of RFC 3501): content and flags are kept. */
  function Copy(s: Store, from: string, u: nat, to: string): Store {
    if Has(s, from, u) && to in s then Append(s, to, s[from].messages[u]) else s
  }

  /** UID EXPUNGE of one uid (section 2.1 of RFC 4315): only that uid, and only if it is
      flagged deleted. */
  function Expunge(s: Store, box: string, u: nat): Store {
    if Has(s, box, u) && DELETED in s[box].messages[u].flags then Remove(s, box, u) else s
  }

  /** UID MOVE of one uid (section 3.3 of RFC 6851). */
  function Move(s: Store, from: string, u: nat, to: string): Store {
    if Has(s, from, u) && to in s then Remove(Append(s, to, s[from].messages[u]), from, u) else s
  }

  /** Copy, flag deleted, expunge that uid: the same store as MOVE, whatever else is flagged
      deleted in the source. */
  lemma FallbackIsMove(s: Store, from: string, u: nat, to: string)
    requires from != to && to in s
    ensures Expunge(AddFlags(Copy(s, from, u, to), from, u, {DELETED}), from, u) == Move(s, from, u, to)
  {
    if Has(s, from, u) {
      var flagged := AddFlags(Copy(s, from, u, to), from, u, {DELETED});
      assert flagged[from].messages - {u} == s[from].messages - {u};
    }
  }

  /** From `s0` on, everything but the message `u` of `from` is untouched, and that message
      is still in the source or under the target's next uid, with its content. */
  ghost predicate Conserved(s0: Store, s: Store, from: string, u: nat, to: string) {
    && s.Keys == s0.Keys
    && (forall box :: box in s0 ==> s[box].uidValidity == s0[box].uidValidity)
    && (forall box, v :: Has(s0, box, v) && (box, v) != (from, u) ==> Has(s, box, v) && s[box].messages[v] == s0[box].messages[v])
    && (forall box, v :: Has(s, box, v) && !Has(s0, box, v) ==>
          && box == to && v == s0[to].uidNext
          && Has(s0, from, u) && s[box].messages[v].body == s0[from].messages[u].body)
    && (Has(s0, from, u) ==>
          || (Has(s, from, u) && s[from].messages[u].body == s0[from].messages[u].body
              && s[from].messages[u].flags >= s0[from].messages[u].flags)
          || (to in s0 && Has(s, to, s0[to].uidNext)
              && s[to].messages[s0[to].uidNext].body == s0[from].messages[u].body))
  }

  lemma FlagsConserve(s0: Store, from: string, u: nat, to: string, flags: set<string>)
    ensures Conserved(s0, AddFlags(s0, from, u, flags), from, u, to)
  {
  }

  lemma CopyConserves(s0: Store, from: string, u: nat, to: string, flags: set<string>, more: set<string>)
    requires WellFormed(s0) && from != to && to in s0
    ensures Conserved(s0, AddFlags(Copy(AddFlags(s0, from, u, flags), from, u, to), from, u, more), from, u, to)
  {
  }

  lemma MoveConserves(s0: Store, from: string, u: nat, to: string, flags: set<string>)
    requires WellFormed(s0) && from != to && to in s0
    ensures Conserved(s0, Move(AddFlags(s0, from, u, flags), from, u, to), from, u, to)
  {
  }

  /** After a move the message is gone from the source and is the target's newest. */
  lemma MoveLands(s: Store, from: string, u: nat, to: string)
    requires WellFormed(s) && from != to && to in s && Has(s, from, u)
    ensures var t := Move(s, from, u, to);
            && !Has(t, from, u) && t[to].messages == s[to].messages[s[to].uidNext := s[from].messages[u]]
            && s[to].uidNext !in s[to].messages && WellFormed(t)
  {
  }

  /** Flags are added to the one message; nothing is taken away anywhere. */
  lemma AddFlagsAdds(s: Store, box: string, u: nat, flags: set<string>, b: string, v: nat)
    ensures var t := AddFlags(s, box, u, flags);
            && t.Keys == s.Keys && (Has(t, b, v) <==> Has(s, b, v))
            && (Has(s, b, v) ==>
                  && t[b].messages[v].body == s[b].messages[v].body
                  && t[b].messages[v].flags == s[b].messages[v].flags + if b == box && v == u then flags else {})
  {
  }

  lemma FlagsTwice(s: Store, box: string, u: nat, a: set<string>, b: set<string>)
    ensures AddFlags(AddFlags(s, box, u, a), box, u, b) == AddFlags(s, box, u, a + b)
  {
    if Has(s, box, u) {
      var m := s[box].messages[u];
      assert m.flags + a + b == m.flags + (a + b);
      assert s[box].messages[u := m.(flags := m.flags + a)][u := m.(flags := m.flags + (a + b))]
             == s[box].messages[u := m.(flags := m.flags + (a + b))];
    }
  }
}
