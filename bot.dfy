/**
 * bot.py: the relay that turns manager events into broadcasts without
 * repeating a "server is up" or "server is down" message, the three access
 * guards wrapped around the command handlers, and the edits /add and
 * /remove_user make to the saved user list.
 */
module Bot {
  import opened Wrappers
  import opened Text
  import ManagerLogic
  import opened Access

  // ---------------------------------------------------------------------------
  // The broadcast relay
  // ---------------------------------------------------------------------------

  /** The two keys of an event dict that the relay reads. */
  datatype Event = Event(event: Option<string>, eventType: Option<string>)

  /** The dict the manager dispatches carries its kind under "type". */
  function ManagerEvent(k: ManagerLogic.EventKind): Event {
    Event(None, Some(ManagerLogic.KindName(k)))
  }

  /** The event's name: its "event" field, else its "type" field, else empty, in lower case. */
  function EventName(ev: Event): string {
    Lower(
      if ev.event.Some? && ev.event.value != "" then ev.event.value
      else if ev.eventType.Some? && ev.eventType.value != "" then ev.eventType.value
      else "")
  }

  predicate IsFinalHealthy(name: string) {
    name == "manual_start_confirmed" || name == "health_ok"
  }

  predicate IsFinalStopped(name: string) {
    name == "server_stop"
  }

  /** The last state the relay broadcast: healthy, stopped, or neither. */
  datatype Relay = Relay(healthy: bool, stopped: bool)

  const RELAY_START: Relay := Relay(false, false)

  datatype Decision = NotFinal | Suppressed | Broadcast

  /** Whether an event with this name is ignored, suppressed as a repeat, or broadcast. */
  function Decide(st: Relay, name: string): (d: Decision)
    ensures d == NotFinal <==> !IsFinalHealthy(name) && !IsFinalStopped(name)
  {
    if IsFinalHealthy(name) then
      if st.healthy && !st.stopped then Suppressed else Broadcast
    else if IsFinalStopped(name) then
      if st.stopped && !st.healthy then Suppressed else Broadcast
    else NotFinal
  }

  /**
   * The relay state after an event; `delivered` is false when
   * broadcast_message raised, in which case the state stays as it was.
   */
  function After(st: Relay, name: string, delivered: bool): Relay {
    if Decide(st, name) == Broadcast && delivered then
      if IsFinalHealthy(name) then Relay(true, false) else Relay(false, true)
    else st
  }

  /**
   * A healthy event is suppressed exactly in state (healthy, not stopped) and
   * otherwise ends there; a stop event likewise for (stopped, not healthy);
   * any other event changes nothing.
   */
  lemma RelayRules(st: Relay, name: string, delivered: bool)
    ensures IsFinalHealthy(name) ==> (Decide(st, name) == Suppressed <==> st == Relay(true, false))
    ensures IsFinalHealthy(name) && delivered ==> After(st, name, delivered) == Relay(true, false)
    ensures IsFinalStopped(name) ==> (Decide(st, name) == Suppressed <==> st == Relay(false, true))
    ensures IsFinalStopped(name) && delivered ==> After(st, name, delivered) == Relay(false, true)
    ensures !IsFinalHealthy(name) && !IsFinalStopped(name) ==> Decide(st, name) == NotFinal && After(st, name, delivered) == st
    ensures !delivered ==> After(st, name, delivered) == st
  {
  }

  /** Events processed one after another, every broadcast delivered: the final state and the number of broadcasts. */
  datatype Run = Run(state: Relay, broadcasts: nat)

  function RunAll(st: Relay, names: seq<string>): Run
    decreases |names|
  {
    if names == [] then Run(st, 0)
    else
      var rest := RunAll(After(st, names[0], true), names[1..]);
      Run(rest.state, rest.broadcasts + if Decide(st, names[0]) == Broadcast then 1 else 0)
  }

  /** The relay is never healthy and stopped at once. */
  lemma {:induction false} RunNeverBoth(st: Relay, names: seq<string>)
    requires !(st.healthy && st.stopped)
    ensures var r := RunAll(st, names); !(r.state.healthy && r.state.stopped) && r.broadcasts <= |names|
    decreases |names|
  {
    if names != [] {
      RunNeverBoth(After(st, names[0], true), names[1..]);
    }
  }

  /** Two final events of the same kind in a row broadcast once. */
  lemma SameKindTwice(st: Relay, a: string, b: string)
    requires (IsFinalHealthy(a) && IsFinalHealthy(b)) || (IsFinalStopped(a) && IsFinalStopped(b))
    ensures RunAll(st, [a, b]).broadcasts == if Decide(st, a) == Broadcast then 1 else 0
    ensures RunAll(RELAY_START, [a, b]).broadcasts == 1
  {
    var s1 := After(st, a, true);
    assert [a, b][1..] == [b];
    assert [b][1..] == [];
    assert Decide(s1, b) == Suppressed;
    assert RunAll(s1, [b]).broadcasts == 0;
  }

  /** The kind of a final event: true for healthy, false for stopped. */
  function HealthyKind(name: string): bool {
    IsFinalHealthy(name)
  }

  /** Every event is final, and neighbours are of different kinds. */
  predicate Alternating(names: seq<string>) {
    && (forall i :: 0 <= i < |names| ==> IsFinalHealthy(names[i]) || IsFinalStopped(names[i]))
    && (forall i :: 0 <= i < |names| - 1 ==> HealthyKind(names[i]) != HealthyKind(names[i + 1]))
  }

  /** The state a delivered broadcast of this kind leaves. */
  function Reached(healthy: bool): Relay {
    if healthy then Relay(true, false) else Relay(false, true)
  }

  /** From the initial state, or after the other kind, alternating final events broadcast every time. */
  lemma {:induction false} AlternatingBroadcastsAll(st: Relay, names: seq<string>)
    requires Alternating(names)
    requires names == [] || st == RELAY_START || st == Reached(!HealthyKind(names[0]))
    ensures RunAll(st, names).broadcasts == |names|
    decreases |names|
  {
    if names != [] {
      var next := After(st, names[0], true);
      assert Decide(st, names[0]) == Broadcast;
      assert next == Reached(HealthyKind(names[0]));
      var rest := names[1..];
      assert Alternating(rest) by {
        forall i | 0 <= i < |rest|
          ensures IsFinalHealthy(rest[i]) || IsFinalStopped(rest[i])
        {
          assert rest[i] == names[i + 1];
        }
        forall i | 0 <= i < |rest| - 1
          ensures HealthyKind(rest[i]) != HealthyKind(rest[i + 1])
        {
          assert rest[i] == names[i + 1] && rest[i + 1] == names[i + 2];
        }
      }
      if rest != [] {
        assert rest[0] == names[1];
        assert HealthyKind(names[1]) != HealthyKind(names[0]);
      }
      AlternatingBroadcastsAll(next, rest);
    }
  }

  /** Lower-casing a string without capitals changes nothing. */
  lemma LowerUnchanged(s: string)
    requires forall i :: 0 <= i < |s| ==> !('A' <= s[i] <= 'Z')
    ensures Lower(s) == s
  {
  }

  /** The manager's event names are already lower case. */
  lemma KindNameLower(k: ManagerLogic.EventKind)
    ensures EventName(ManagerEvent(k)) == ManagerLogic.KindName(k)
  {
    match k
    case ServerStart => LowerUnchanged("server_start");
    case ServerStop => LowerUnchanged("server_stop");
    case HealthUnhealthy => LowerUnchanged("health_unhealthy");
    case HealthOk => LowerUnchanged("health_ok");
    case ManualStartConfirmed => LowerUnchanged("manual_start_confirmed");
    case ManualStartDuplicate => LowerUnchanged("manual_start_duplicate");
    case ManualStartFailed => LowerUnchanged("manual_start_failed");
  }

  /** Of the manager's events, health_ok and manual_start_confirmed count as healthy and server_stop as stopped. */
  lemma ManagerEventsRelayed(k: ManagerLogic.EventKind)
    ensures IsFinalHealthy(EventName(ManagerEvent(k))) <==> k == ManagerLogic.HealthOk || k == ManagerLogic.ManualStartConfirmed
    ensures IsFinalStopped(EventName(ManagerEvent(k))) <==> k == ManagerLogic.ServerStop
  {
    KindNameLower(k);
    var s := ManagerLogic.KindName(k);
    match k
    case ServerStart =>
      assert |s| != |"server_stop"| && |s| != |"health_ok"| && |s| != |"manual_start_confirmed"|;
    case ServerStop =>
      assert |s| != |"health_ok"| && |s| != |"manual_start_confirmed"|;
    case HealthUnhealthy =>
      assert |s| != |"server_stop"| && |s| != |"health_ok"| && |s| != |"manual_start_confirmed"|;
    case HealthOk =>
      assert |s| != |"server_stop"|;
    case ManualStartConfirmed =>
      assert |s| != |"server_stop"|;
    case ManualStartDuplicate =>
      assert |s| != |"server_stop"| && |s| != |"health_ok"|;
      assert s[13] != "manual_start_confirmed"[13];
    case ManualStartFailed =>
      assert |s| != |"server_stop"| && |s| != |"health_ok"| && |s| != |"manual_start_confirmed"|;
  }

  /** The relay's state, shared by the threads that broadcast. */
  class EventRelay {
    var healthy: bool
    var stopped: bool

    constructor ()
      ensures healthy == RELAY_START.healthy && stopped == RELAY_START.stopped
    {
      healthy, stopped := false, false;
    }

    function State(): Relay
      reads this
    {
      Relay(healthy, stopped)
    }

    /**
     * _manager_event_handler and the broadcast it starts, run to completion:
     * a final event that is not a repeat is broadcast through the access
     * store, and the state records it unless broadcast_message raised
     * because no bot was set.
     */
    method HandleEvent(ev: Event, store: AccessStore, failing: set<int>) returns (d: Decision, result: Option<BroadcastResult>)
      modifies this
      ensures d == Decide(old(State()), EventName(ev))
      ensures result.Some? <==> d == Broadcast
      ensures result.Some? ==> (result.value.BotNotSet? <==> !store.botSet)
      ensures result.Some? && store.botSet ==>
        result.value == Delivered(Only(Plan(store.adminId, store.Users(), store.Chats()), failing, false),
                                  Only(Plan(store.adminId, store.Users(), store.Chats()), failing, true))
      ensures State() == After(old(State()), EventName(ev), store.botSet)
    {
      var name := EventName(ev);
      var isFinalHealthy := name == "manual_start_confirmed" || name == "health_ok";
      var isFinalStopped := name == "server_stop";
      result := None;
      if !(isFinalHealthy || isFinalStopped) {
        return NotFinal, None;
      }
      if isFinalHealthy {
        if healthy && !stopped {
          return Suppressed, None;
        }
        var r := store.Broadcast(failing);
        if r.BotNotSet? {
          return Broadcast, Some(r);
        }
        healthy, stopped := true, false;
        d, result := Broadcast, Some(r);
      } else {
        if stopped && !healthy {
          return Suppressed, None;
        }
        var r := store.Broadcast(failing);
        if r.BotNotSet? {
          return Broadcast, Some(r);
        }
        stopped, healthy := true, false;
        d, result := Broadcast, Some(r);
      }
    }
  }

  // ---------------------------------------------------------------------------
  // Access guards
  // ---------------------------------------------------------------------------

  /** What a guard learns of a message: the sender's id, the chat's id and the chat's type, each possibly missing. */
  datatype Caller = Caller(userId: Option<int>, chatId: Option<int>, chatType: Option<string>)

  datatype Verdict = Allowed | UnknownUser | NotAuthorized | UnknownChat | WrongChat | AdminOnly

  /** user_restricted, in the order of its checks; `users` is the saved user list. */
  function UserRestricted(c: Caller, admin: int, users: seq<int>): Verdict {
    if c.userId.None? then UnknownUser
    else if c.userId.value == admin || c.userId.value in users then Allowed
    else if c.chatId == Some(admin) then Allowed
    else NotAuthorized
  }

  /** admin_restricted */
  function AdminRestricted(c: Caller, admin: int): Verdict {
    if c.userId.None? then UnknownUser
    else if c.userId.value == admin || c.chatId == Some(admin) then Allowed
    else AdminOnly
  }

  /** group_chat_restricted; `chats` is the saved chat list. */
  function GroupChatRestricted(c: Caller, admin: int, chats: seq<int>): Verdict {
    if c.chatId.None? then UnknownChat
    else if c.userId == Some(admin) then Allowed
    else if c.chatId.value in chats && (c.chatType == Some("group") || c.chatType == Some("supergroup")) then Allowed
    else WrongChat
  }

  /** user_restricted lets a known sender through iff they are the admin, a saved user, or writing from the admin's chat. */
  lemma UserRestrictedAllows(c: Caller, admin: int, users: seq<int>)
    ensures UserRestricted(c, admin, users) == Allowed <==>
      c.userId.Some? && (c.userId.value == admin || c.userId.value in users || c.chatId == Some(admin))
    ensures c.userId.None? ==> UserRestricted(c, admin, users) == UnknownUser
  {
  }

  /**
   * Whatever the saved list, admin_restricted is the stronger guard, so a
   * handler wrapped in both, in either order, runs exactly when
   * admin_restricted alone would let it.
   */
  lemma AdminImpliesUser(c: Caller, admin: int, users: seq<int>)
    ensures AdminRestricted(c, admin) == Allowed ==> UserRestricted(c, admin, users) == Allowed
    ensures (AdminRestricted(c, admin) == Allowed && UserRestricted(c, admin, users) == Allowed)
      <==> c.userId.Some? && (c.userId.value == admin || c.chatId == Some(admin))
  {
  }

  /**
   * group_chat_restricted: an unknown chat is refused even to the admin, the
   * admin is let through anywhere else, and anybody else only in a saved chat
   * of type group or supergroup.
   */
  lemma GroupChatAllows(c: Caller, admin: int, chats: seq<int>)
    ensures c.chatId.None? ==> GroupChatRestricted(c, admin, chats) == UnknownChat
    ensures c.chatId.Some? && c.userId == Some(admin) ==> GroupChatRestricted(c, admin, chats) == Allowed
    ensures c.chatId.Some? && c.userId != Some(admin) ==>
      (GroupChatRestricted(c, admin, chats) == Allowed <==>
        c.chatId.value in chats && c.chatType in {Some("group"), Some("supergroup")})
  {
  }

  // ---------------------------------------------------------------------------
  // Editing the user list
  // ---------------------------------------------------------------------------

  /** The user list with every occurrence of one id removed. */
  function Without(xs: seq<int>, id: int): (r: seq<int>)
    ensures |r| <= |xs|
    ensures forall x :: x in r <==> x in xs && x != id
  {
    if xs == [] then []
    else if xs[0] == id then Without(xs[1..], id)
    else [xs[0]] + Without(xs[1..], id)
  }

  /** Without keeps the other entries in order and, for a list without duplicates, drops exactly one. */
  lemma {:induction false} WithoutShape(xs: seq<int>, id: int)
    ensures id !in xs ==> Without(xs, id) == xs
    ensures NoDup(xs) && id in xs ==> |Without(xs, id)| == |xs| - 1
  {
    if xs != [] {
      WithoutShape(xs[1..], id);
      if NoDup(xs) {
        assert NoDup(xs[1..]) by {
          forall i, j | 0 <= i < j < |xs[1..]|
            ensures xs[1..][i] != xs[1..][j]
          {
            assert xs[1..][i] == xs[i + 1] && xs[1..][j] == xs[j + 1];
          }
        }
        if xs[0] == id {
          assert id !in xs[1..] by {
            forall k | 0 <= k < |xs[1..]|
              ensures xs[1..][k] != id
            {
              assert xs[1..][k] == xs[k + 1];
            }
          }
        }
      }
    }
  }

  datatype EditResult = AlreadyPresent | NotPresent | SaveFailed | Saved(count: nat)

  /**
   * The list edit of /add: an id already saved is reported and nothing is
   * written; otherwise the list with the id appended is saved. `saveOk` is
   * false when save_users raises, which leaves the file as it was.
   */
  method AddUser(store: AccessStore, userId: int, saveOk: bool) returns (r: EditResult)
    modifies store`usersFile
    ensures userId in old(store.Users()) ==> r == AlreadyPresent && store.usersFile == old(store.usersFile)
    ensures userId !in old(store.Users()) && !saveOk ==> r == SaveFailed && store.usersFile == old(store.usersFile)
    ensures userId !in old(store.Users()) && saveOk ==>
      r == Saved(|old(store.Users())| + 1) && store.Users() == old(store.Users()) + [userId]
  {
    var usersList := LoadList(UserEntry, store.usersFile);
    if userId in usersList {
      return AlreadyPresent;
    }
    usersList := usersList + [userId];
    if !saveOk {
      return SaveFailed;
    }
    NormalizedInts(usersList);
    store.SaveUsers(Ints(usersList));
    r := Saved(|usersList|);
  }

  /** The list edit of /remove_user: an id not saved is reported; otherwise every occurrence is dropped and the rest saved. */
  method RemoveUser(store: AccessStore, userId: int, saveOk: bool) returns (r: EditResult)
    modifies store`usersFile
    ensures userId !in old(store.Users()) ==> r == NotPresent && store.usersFile == old(store.usersFile)
    ensures userId in old(store.Users()) && !saveOk ==> r == SaveFailed && store.usersFile == old(store.usersFile)
    ensures userId in old(store.Users()) && saveOk ==>
      r == Saved(|old(store.Users())| - 1) && store.Users() == Without(old(store.Users()), userId)
  {
    var usersList := LoadList(UserEntry, store.usersFile);
    if userId !in usersList {
      return NotPresent;
    }
    WithoutShape(usersList, userId);
    usersList := Without(usersList, userId);
    if !saveOk {
      return SaveFailed;
    }
    WithoutNoDup(old(store.Users()), userId);
    NormalizedInts(usersList);
    store.SaveUsers(Ints(usersList));
    r := Saved(|usersList|);
  }

  lemma {:induction false} WithoutNoDup(xs: seq<int>, id: int)
    requires NoDup(xs)
    ensures NoDup(Without(xs, id))
  {
    if xs != [] {
      assert NoDup(xs[1..]) by {
        forall i, j | 0 <= i < j < |xs[1..]|
          ensures xs[1..][i] != xs[1..][j]
        {
          assert xs[1..][i] == xs[i + 1] && xs[1..][j] == xs[j + 1];
        }
      }
      WithoutNoDup(xs[1..], id);
      if xs[0] != id {
        assert xs[0] !in xs[1..] by {
          forall k | 0 <= k < |xs[1..]|
            ensures xs[1..][k] != xs[0]
          {
            assert xs[1..][k] == xs[k + 1];
          }
        }
      }
    }
  }
}
