/**
 * access.py: the saved lists of user ids and group-chat ids, how entries are
 * normalised when the lists are loaded and saved, the planning of a broadcast
 * to everybody on them, and adding a group chat. The JSON files are held as
 * their decoded contents; sending a message is an oracle naming the ids whose
 * send fails.
 */
module Access {
  import opened Wrappers
  import opened Text

  // ---------------------------------------------------------------------------
  // Entries and their conversion
  // ---------------------------------------------------------------------------

  /** A value as json.load returns it; floats, null and objects are all Other. */
  datatype Json = JInt(i: int) | JBool(b: bool) | JStr(s: string) | JList(items: seq<Json>) | JOther

  /** Python's bool is an int: True is 1 and False is 0. */
  function BoolInt(b: bool): int {
    if b then 1 else 0
  }

  /**
   * The three ways an entry becomes an id: load_users keeps ints and strings of
   * digits, load_chats also lets leading minus signs through its digit test,
   * and save_users / save_chats call int() on whatever they are given.
   */
  datatype Conversion = UserEntry | ChatEntry | IntCall

  /** s.lstrip(ch) for one character. */
  function LStripChar(s: string, ch: char): (r: string)
    ensures |r| <= |s| && r == s[|s| - |r|..]
    ensures r == [] || r[0] != ch
    ensures forall i :: 0 <= i < |s| - |r| ==> s[i] == ch
  {
    if s != [] && s[0] == ch then LStripChar(s[1..], ch) else s
  }

  /** The id one entry yields under a conversion, or None where the source skips it. */
  function Convert(c: Conversion, v: Json): Option<int> {
    match v
    case JInt(i) => Some(i)
    case JBool(b) => Some(BoolInt(b))
    case JStr(s) =>
      (match c
       case UserEntry => if s != [] && AllDigits(s) then Some(DecimalValue(s)) else None
       case ChatEntry => var t := LStripChar(s, '-'); if t != [] && AllDigits(t) then ParseInt(s) else None
       case IntCall => ParseInt(s))
    case _ => None
  }

  /** The ids of the entries that convert, in order, duplicates included. */
  function Converted(c: Conversion, raw: seq<Json>): (r: seq<int>)
    ensures |r| <= |raw|
  {
    if raw == [] then []
    else
      var init := Converted(c, raw[..|raw| - 1]);
      match Convert(c, raw[|raw| - 1])
      case Some(x) => init + [x]
      case None => init
  }

  /** The first occurrence of every element, in the order of first occurrence. */
  function Dedup(xs: seq<int>): (r: seq<int>)
    ensures |r| <= |xs|
  {
    if xs == [] then []
    else
      var d := Dedup(xs[..|xs| - 1]);
      if xs[|xs| - 1] in d then d else d + [xs[|xs| - 1]]
  }

  /** What one pass of the load/save loop keeps: converted entries, first occurrences only. */
  function Normalized(c: Conversion, raw: seq<Json>): seq<int> {
    Dedup(Converted(c, raw))
  }

  lemma ConvertedSnoc(c: Conversion, raw: seq<Json>, v: Json)
    ensures Converted(c, raw + [v]) == Converted(c, raw) + (match Convert(c, v) case Some(x) => [x] case None => [])
  {
    assert (raw + [v])[..|raw|] == raw;
  }

  lemma DedupSnoc(xs: seq<int>, x: int)
    ensures Dedup(xs + [x]) == if x in Dedup(xs) then Dedup(xs) else Dedup(xs) + [x]
  {
    assert (xs + [x])[..|xs|] == xs;
  }

  /** An id is converted iff some entry converts to it. */
  lemma {:induction false} ConvertedMembers(c: Conversion, raw: seq<Json>)
    ensures forall x :: x in Converted(c, raw) <==> exists k :: 0 <= k < |raw| && Convert(c, raw[k]) == Some(x)
  {
    if raw != [] {
      var init := raw[..|raw| - 1];
      ConvertedMembers(c, init);
      forall x
        ensures x in Converted(c, raw) <==> exists k :: 0 <= k < |raw| && Convert(c, raw[k]) == Some(x)
      {
        if x in Converted(c, raw) && x in Converted(c, init) {
          var k :| 0 <= k < |init| && Convert(c, init[k]) == Some(x);
          assert raw[k] == init[k];
        }
        if exists k :: 0 <= k < |raw| && Convert(c, raw[k]) == Some(x) {
          var k :| 0 <= k < |raw| && Convert(c, raw[k]) == Some(x);
          if k < |init| {
            assert init[k] == raw[k];
          }
        }
      }
    }
  }

  /** Dedup keeps exactly the elements of its input. */
  lemma {:induction false} DedupMembers(xs: seq<int>)
    ensures forall x :: x in Dedup(xs) <==> x in xs
  {
    if xs != [] {
      DedupMembers(xs[..|xs| - 1]);
      assert xs == xs[..|xs| - 1] + [xs[|xs| - 1]];
    }
  }

  /** Dedup's output has no duplicates. */
  lemma {:induction false} DedupNoDup(xs: seq<int>)
    ensures NoDup(Dedup(xs))
  {
    if xs != [] {
      DedupNoDup(xs[..|xs| - 1]);
    }
  }

  /** A list without duplicates is its own Dedup, so normalising twice changes nothing. */
  lemma {:induction false} DedupOfNoDup(xs: seq<int>)
    requires NoDup(xs)
    ensures Dedup(xs) == xs
  {
    if xs != [] {
      var init := xs[..|xs| - 1];
      DedupOfNoDup(init);
      DedupMembers(init);
      assert xs == init + [xs[|xs| - 1]];
    }
  }

  /** The elements of r occur in xs, and r lists them in the order of their first occurrence in xs. */
  predicate FirstOccurrenceOrder(r: seq<int>, xs: seq<int>) {
    && (forall y :: y in r ==> y in xs)
    && (forall i, j :: 0 <= i < j < |r| ==> r[i] in xs && r[j] in xs && IndexOf(xs, r[i]) < IndexOf(xs, r[j]))
  }

  /** Dedup lists the elements in the order of their first occurrence in the input. */
  lemma {:induction false} DedupFirstOrder(xs: seq<int>)
    ensures FirstOccurrenceOrder(Dedup(xs), xs)
  {
    DedupMembers(xs);
    if xs != [] {
      var init := xs[..|xs| - 1];
      var d := Dedup(init);
      DedupFirstOrder(init);
      DedupMembers(init);
      forall y | y in d
        ensures IndexOf(xs, y) == IndexOf(init, y) < |init|
      {
        var k := IndexOf(init, y);
        assert xs[..k] == init[..k];
        IndexOfUnique(xs, y, k);
      }
      var last := xs[|xs| - 1];
      if last !in d {
        assert xs[..|init|] == init;
        IndexOfUnique(xs, last, |init|);
      }
    }
  }

  /** The load/save loop, with its `seen` set. */
  method Normalize(c: Conversion, raw: seq<Json>) returns (ids: seq<int>)
    ensures ids == Normalized(c, raw)
  {
    ids := [];
    var seen: set<int> := {};
    for i := 0 to |raw|
      invariant ids == Dedup(Converted(c, raw[..i]))
      invariant seen == set x | x in ids
    {
      assert raw[..i + 1] == raw[..i] + [raw[i]];
      ConvertedSnoc(c, raw[..i], raw[i]);
      var entry := Convert(c, raw[i]);
      if entry.None? {
        continue;
      }
      DedupSnoc(Converted(c, raw[..i]), entry.value);
      if entry.value !in seen {
        seen := seen + {entry.value};
        ids := ids + [entry.value];
      }
    }
    assert raw[..|raw|] == raw;
  }

  // ---------------------------------------------------------------------------
  // Loading and saving
  // ---------------------------------------------------------------------------

  /**
   * load_users (UserEntry) and load_chats (ChatEntry) after the JSON decode:
   * a missing or unreadable file (None) and a payload that is not a list give
   * the empty list.
   */
  function Loaded(c: Conversion, file: Option<Json>): (r: seq<int>)
    ensures NoDup(r)
    ensures file.None? || !file.value.JList? ==> r == []
  {
    if file.Some? && file.value.JList? then
      DedupNoDup(Converted(c, file.value.items));
      Normalized(c, file.value.items)
    else []
  }

  method LoadList(c: Conversion, file: Option<Json>) returns (ids: seq<int>)
    ensures ids == Loaded(c, file)
  {
    if file.None? || !file.value.JList? {
      return [];
    }
    ids := Normalize(c, file.value.items);
  }

  /** The ids as the JSON list that _atomic_write stores. */
  function Ints(ids: seq<int>): (r: seq<Json>)
    ensures |r| == |ids| && forall k :: 0 <= k < |ids| ==> r[k] == JInt(ids[k])
  {
    seq(|ids|, k requires 0 <= k < |ids| => JInt(ids[k]))
  }

  function Payload(ids: seq<int>): Json {
    JList(Ints(ids))
  }

  /** Converting a stored list of ints gives the ints back, under every conversion. */
  lemma {:induction false} ConvertedInts(c: Conversion, ids: seq<int>)
    ensures Converted(c, Ints(ids)) == ids
  {
    if ids != [] {
      var init := ids[..|ids| - 1];
      assert Ints(ids)[..|ids| - 1] == Ints(init);
      ConvertedInts(c, init);
      assert ids == init + [ids[|ids| - 1]];
    }
  }

  /** Saving a duplicate-free list of ints writes exactly that list. */
  lemma NormalizedInts(ids: seq<int>)
    requires NoDup(ids)
    ensures Normalized(IntCall, Ints(ids)) == ids
  {
    ConvertedInts(IntCall, ids);
    DedupOfNoDup(ids);
  }

  /** Loading what a save wrote gives back exactly the list that was saved, for users and chats alike. */
  lemma LoadAfterSave(c: Conversion, xs: seq<Json>)
    ensures Loaded(c, Some(Payload(Normalized(IntCall, xs)))) == Normalized(IntCall, xs)
  {
    var ids := Normalized(IntCall, xs);
    DedupNoDup(Converted(IntCall, xs));
    ConvertedInts(c, ids);
    DedupOfNoDup(ids);
  }

  /** The loaded list has no duplicates and holds exactly the ids some entry converts to, in first-occurrence order. */
  lemma LoadedShape(c: Conversion, raw: seq<Json>)
    ensures NoDup(Loaded(c, Some(JList(raw))))
    ensures forall x :: x in Loaded(c, Some(JList(raw))) <==> exists k :: 0 <= k < |raw| && Convert(c, raw[k]) == Some(x)
    ensures FirstOccurrenceOrder(Loaded(c, Some(JList(raw))), Converted(c, raw))
  {
    var conv := Converted(c, raw);
    assert Loaded(c, Some(JList(raw))) == Dedup(conv);
    ConvertedMembers(c, raw);
    DedupMembers(conv);
    DedupFirstOrder(conv);
  }

  /** str(i) for a negative i passes the chat test ("-100123") but never the user test. */
  lemma DecimalEntries(i: int)
    ensures Convert(ChatEntry, JStr(IntToDecimal(i))) == Some(i)
    ensures Convert(UserEntry, JStr(IntToDecimal(i))) == if i >= 0 then Some(i) else None
  {
    var s := IntToDecimal(i);
    ParseIntOfDecimal(i);
    if i < 0 {
      assert s[1..] == NatToDecimal(-i);
      assert s == "-" + NatToDecimal(-i);
      assert LStripChar(s, '-') == LStripChar(NatToDecimal(-i), '-');
      assert !AllDigits(s) by {
        assert !IsDigit(s[0]);
      }
      var d := NatToDecimal(-i);
      assert !IsDigit('-') && d[0] != '-' by {
        assert IsDigit(d[0]);
      }
    } else {
      var d := NatToDecimal(i);
      assert d[0] != '-' by {
        assert IsDigit(d[0]);
      }
    }
  }

  /** lstrip("-") takes both minus signs off "--" followed by digits. */
  lemma LStripDoubleMinus(d: string)
    requires d != [] && AllDigits(d)
    ensures LStripChar("--" + d, '-') == d
  {
    var s := "--" + d;
    assert s[1..] == "-" + d;
    assert ("-" + d)[1..] == d;
    assert d[0] != '-' by {
      assert IsDigit(d[0]);
    }
  }

  /** int() rejects "--" followed by digits. */
  lemma ParseIntDoubleMinus(d: string)
    requires d != [] && AllDigits(d)
    ensures ParseInt("--" + d) == None
  {
    var s := "--" + d;
    assert s != [] && !IsSpace(s[0]) && !IsSpace(s[|s| - 1]) by {
      assert s[|s| - 1] == d[|d| - 1];
      assert IsDigit(s[|s| - 1]);
    }
    StripUnpadded(s);
    assert s[1..] != [] && !AllDigits(s[1..]) by {
      assert s[1..][0] == '-';
    }
  }

  /** "--5" passes lstrip("-").isdigit() but int() rejects it, so load_chats drops it. */
  lemma DoubleMinusDropped(d: string)
    requires d != [] && AllDigits(d)
    ensures Convert(ChatEntry, JStr("--" + d)) == None
  {
    LStripDoubleMinus(d);
    ParseIntDoubleMinus(d);
  }

  // ---------------------------------------------------------------------------
  // Broadcast planning
  // ---------------------------------------------------------------------------

  datatype TargetKind = UserTarget | ChatTarget

  datatype Target = Target(kind: TargetKind, id: int)

  function IdsOf(ts: seq<Target>): set<int> {
    set t | t in ts :: t.id
  }

  function UserTargets(ids: seq<int>): (r: seq<Target>)
    ensures |r| == |ids| && forall k :: 0 <= k < |ids| ==> r[k] == Target(UserTarget, ids[k])
  {
    seq(|ids|, k requires 0 <= k < |ids| => Target(UserTarget, ids[k]))
  }

  function ChatTargets(ids: seq<int>): (r: seq<Target>)
    ensures |r| == |ids| && forall k :: 0 <= k < |ids| ==> r[k] == Target(ChatTarget, ids[k])
  {
    seq(|ids|, k requires 0 <= k < |ids| => Target(ChatTarget, ids[k]))
  }

  /** The admin id first when it is on neither list, then every user, then every chat. */
  function Targets(admin: Option<int>, users: seq<int>, chats: seq<int>): seq<Target> {
    (if admin.Some? && admin.value !in users && admin.value !in chats then [Target(UserTarget, admin.value)] else [])
    + UserTargets(users) + ChatTargets(chats)
  }

  /** The first target with each id, in order: the id-keyed `sent` set of the send loop. */
  function FirstById(ts: seq<Target>): seq<Target> {
    if ts == [] then []
    else
      var p := FirstById(ts[..|ts| - 1]);
      if ts[|ts| - 1].id in IdsOf(p) then p else p + [ts[|ts| - 1]]
  }

  /** The planned targets whose send failed (failed = true) or went through (failed = false). */
  function Only(plan: seq<Target>, failing: set<int>, failed: bool): seq<Target> {
    if plan == [] then []
    else
      var r := Only(plan[..|plan| - 1], failing, failed);
      if (plan[|plan| - 1].id in failing) == failed then r + [plan[|plan| - 1]] else r
  }

  /** The position of the first target with a given id. */
  function FirstWithId(ts: seq<Target>, id: int): (k: nat)
    requires id in IdsOf(ts)
    ensures k < |ts| && ts[k].id == id && id !in IdsOf(ts[..k])
  {
    var init := ts[..|ts| - 1];
    if id in IdsOf(init) then
      var k := FirstWithId(init, id);
      assert ts[..k] == init[..k];
      k
    else
      assert ts == init + [ts[|ts| - 1]];
      |ts| - 1
  }

  lemma IdsOfSnoc(ts: seq<Target>, t: Target)
    ensures IdsOf(ts + [t]) == IdsOf(ts) + {t.id}
  {
    assert forall u :: u in ts + [t] <==> u in ts || u == t;
  }

  /**
   * The plan attempts every id once: ids are pairwise distinct, the ids are
   * those of the targets, and each planned target is the first target with its id.
   */
  lemma {:induction false} FirstByIdShape(ts: seq<Target>)
    ensures var r := FirstById(ts); forall i, j :: 0 <= i < j < |r| ==> r[i].id != r[j].id
    ensures IdsOf(FirstById(ts)) == IdsOf(ts)
    ensures forall t :: t in FirstById(ts) ==> t == ts[FirstWithId(ts, t.id)]
  {
    if ts != [] {
      var init := ts[..|ts| - 1];
      var x := ts[|ts| - 1];
      var p := FirstById(init);
      FirstByIdShape(init);
      assert ts == init + [x];
      IdsOfSnoc(init, x);
      IdsOfSnoc(p, x);
      forall t | t in FirstById(ts)
        ensures t == ts[FirstWithId(ts, t.id)]
      {
        if t in p {
          assert t.id in IdsOf(init);
        } else {
          assert t == x && x.id !in IdsOf(init);
        }
      }
    }
  }

  /** A planned target lands in exactly one of `sent` and `failed`, and nothing else does. */
  lemma {:induction false} OnlyPartition(plan: seq<Target>, failing: set<int>)
    ensures forall t :: t in Only(plan, failing, true) <==> t in plan && t.id in failing
    ensures forall t :: t in Only(plan, failing, false) <==> t in plan && t.id !in failing
    ensures |Only(plan, failing, true)| + |Only(plan, failing, false)| == |plan|
  {
    if plan != [] {
      OnlyPartition(plan[..|plan| - 1], failing);
      assert plan == plan[..|plan| - 1] + [plan[|plan| - 1]];
    }
  }

  /** The broadcast plan for an admin id and the loaded lists. */
  function Plan(admin: Option<int>, users: seq<int>, chats: seq<int>): seq<Target> {
    FirstById(Targets(admin, users, chats))
  }

  /** The ids the targets carry: the admin's, the users' and the chats'. */
  lemma TargetIds(admin: Option<int>, users: seq<int>, chats: seq<int>)
    ensures forall id :: id in IdsOf(Targets(admin, users, chats)) <==> id in users || id in chats || admin == Some(id)
  {
    var ts := Targets(admin, users, chats);
    var pre := if admin.Some? && admin.value !in users && admin.value !in chats then [Target(UserTarget, admin.value)] else [];
    var us, cs := UserTargets(users), ChatTargets(chats);
    assert ts == pre + us + cs;
    forall id
      ensures id in IdsOf(ts) <==> id in users || id in chats || admin == Some(id)
    {
      if id in users {
        var k :| 0 <= k < |users| && users[k] == id;
        assert ts[|pre| + k] == us[k];
      }
      if id in chats {
        var k :| 0 <= k < |chats| && chats[k] == id;
        assert ts[|pre| + |us| + k] == cs[k];
      }
      if admin == Some(id) && id !in users && id !in chats {
        assert ts[0] == Target(UserTarget, id);
      }
    }
  }

  /** The first target with a user's id comes from the admin or the user list, never from the chat list. */
  lemma FirstUserTarget(admin: Option<int>, users: seq<int>, chats: seq<int>, id: int)
    requires id in users
    ensures var ts := Targets(admin, users, chats);
      id in IdsOf(ts) && FirstWithId(ts, id) < |ts| - |chats| && ts[FirstWithId(ts, id)] == Target(UserTarget, id)
  {
    var ts := Targets(admin, users, chats);
    var pre := if admin.Some? && admin.value !in users && admin.value !in chats then [Target(UserTarget, admin.value)] else [];
    var us := UserTargets(users);
    assert ts == pre + us + ChatTargets(chats);
    var u :| 0 <= u < |users| && users[u] == id;
    assert ts[|pre| + u] == us[u];
    var k := FirstWithId(ts, id);
    if k < |pre| || k > |pre| + u {
      assert false;
    } else {
      assert ts[k] == us[k - |pre|];
    }
  }

  /** A planned target is a chat exactly when its id is a chat id and no user id. */
  lemma PlannedKind(admin: Option<int>, users: seq<int>, chats: seq<int>, t: Target)
    requires t in Plan(admin, users, chats)
    ensures t.kind == ChatTarget <==> t.id !in users && t.id in chats
  {
    var ts := Targets(admin, users, chats);
    var pre := if admin.Some? && admin.value !in users && admin.value !in chats then [Target(UserTarget, admin.value)] else [];
    var us, cs := UserTargets(users), ChatTargets(chats);
    assert ts == pre + us + cs;
    FirstByIdShape(ts);
    var k := FirstWithId(ts, t.id);
    assert t == ts[k];
    if t.id in users {
      FirstUserTarget(admin, users, chats, t.id);
    } else if k < |pre| {
      assert ts[k] == pre[k];
    } else if k < |pre| + |us| {
      assert false;
    } else {
      assert ts[k] == cs[k - |pre| - |us|];
    }
  }

  /**
   * Every id of the admin, the users and the chats is attempted exactly once,
   * and an id on both lists goes out as a user.
   */
  lemma PlanShape(admin: Option<int>, users: seq<int>, chats: seq<int>)
    ensures var r := Plan(admin, users, chats); forall i, j :: 0 <= i < j < |r| ==> r[i].id != r[j].id
    ensures forall id :: id in IdsOf(Plan(admin, users, chats)) <==> id in users || id in chats || admin == Some(id)
    ensures forall t :: t in Plan(admin, users, chats) ==> (t.kind == ChatTarget <==> t.id !in users && t.id in chats)
  {
    FirstByIdShape(Targets(admin, users, chats));
    TargetIds(admin, users, chats);
    forall t | t in Plan(admin, users, chats)
      ensures t.kind == ChatTarget <==> t.id !in users && t.id in chats
    {
      PlannedKind(admin, users, chats, t);
    }
  }

  /** The send loop: each target whose id was not yet attempted is sent once, landing in `sent` or `failed`. */
  method SendAll(targets: seq<Target>, failing: set<int>) returns (sent: seq<Target>, failed: seq<Target>)
    ensures sent == Only(FirstById(targets), failing, false)
    ensures failed == Only(FirstById(targets), failing, true)
  {
    var attempted: set<int> := {};
    sent, failed := [], [];
    for i := 0 to |targets|
      invariant attempted == IdsOf(FirstById(targets[..i]))
      invariant sent == Only(FirstById(targets[..i]), failing, false)
      invariant failed == Only(FirstById(targets[..i]), failing, true)
    {
      var t := targets[i];
      var p := FirstById(targets[..i]);
      assert targets[..i + 1] == targets[..i] + [t];
      assert targets[..i + 1][..i] == targets[..i];
      if t.id in attempted {
        continue;
      }
      assert (p + [t])[..|p|] == p;
      IdsOfSnoc(p, t);
      attempted := attempted + {t.id};
      if t.id in failing {
        failed := failed + [t];
      } else {
        sent := sent + [t];
      }
    }
    assert targets[..|targets|] == targets;
  }

  datatype BroadcastResult = BotNotSet | Delivered(sent: seq<Target>, failed: seq<Target>)

  // ---------------------------------------------------------------------------
  // Adding a group chat
  // ---------------------------------------------------------------------------

  /** The message a handler receives: its text, its chat and, for a reply, the replied message's chat if it has one. */
  datatype Reply = Reply(chat: Option<int>)

  datatype Message = Message(text: Option<string>, chatId: int, replyTo: Option<Reply>)

  /** The message text, or empty when there is none. */
  function TextOf(m: Message): string {
    if m.text.Some? then m.text.value else ""
  }

  /** The chat id text _add_group_chat_handler parses: the argument, else the replied chat, else the current chat. */
  function HandlerTarget(m: Message): string {
    var parts := SplitOnce(TextOf(m));
    if |parts| > 1 then Strip(parts[1])
    else if m.replyTo.Some? then IntToDecimal(if m.replyTo.value.chat.Some? then m.replyTo.value.chat.value else m.chatId)
    else IntToDecimal(m.chatId)
  }

  /** Without an argument the target is a chat id itself, so it is never rejected as invalid. */
  lemma TargetWithoutArgument(m: Message)
    requires |SplitOnce(TextOf(m))| <= 1
    ensures ParseInt(HandlerTarget(m)) == Some(
      if m.replyTo.Some? && m.replyTo.value.chat.Some? then m.replyTo.value.chat.value else m.chatId)
  {
    if m.replyTo.Some? {
      ParseIntOfDecimal(if m.replyTo.value.chat.Some? then m.replyTo.value.chat.value else m.chatId);
    } else {
      ParseIntOfDecimal(m.chatId);
    }
  }

  /** `/add_group_chat -1001234567890` targets the chat whose id is written after the command. */
  lemma TargetFromArgument(word: string, gap: string, id: int, chat: int, reply: Option<Reply>)
    requires word != [] && NoSpace(word)
    requires gap != [] && forall i :: 0 <= i < |gap| ==> IsSpace(gap[i])
    ensures ParseInt(HandlerTarget(Message(Some(word + gap + IntToDecimal(id)), chat, reply))) == Some(id)
  {
    var arg := IntToDecimal(id);
    IntToDecimalShape(id);
    SplitOnceCommand(word, gap, arg);
    StripUnpadded(arg);
    ParseIntOfDecimal(id);
  }

  datatype AddChatResult = InvalidChatId | AlreadyExists(chatId: int) | Added(chatId: int)

  // ---------------------------------------------------------------------------
  // The module's state
  // ---------------------------------------------------------------------------

  /**
   * The state access.py keeps: the decoded contents of users.json and
   * chats.json (None when missing or unreadable), whether set_bot was called,
   * and the admin id set_admin_id stored.
   */
  class AccessStore {
    var usersFile: Option<Json>
    var chatsFile: Option<Json>
    var botSet: bool
    var adminId: Option<int>

    constructor (users: Option<Json>, chats: Option<Json>)
      ensures usersFile == users && chatsFile == chats
      ensures !botSet && adminId.None?
    {
      usersFile, chatsFile := users, chats;
      botSet, adminId := false, None;
    }

    function Users(): (r: seq<int>)
      reads this
      ensures NoDup(r)
    {
      Loaded(UserEntry, usersFile)
    }

    /** list_group_chats and _list_group_chats_handler: the loaded chat list. */
    function Chats(): (r: seq<int>)
      reads this
      ensures NoDup(r)
    {
      Loaded(ChatEntry, chatsFile)
    }

    method SetBot()
      modifies this`botSet
      ensures botSet
    {
      botSet := true;
    }

    /** set_admin_id: int(admin_id), or None when that raises. */
    method SetAdminId(v: Json)
      modifies this`adminId
      ensures adminId == Convert(IntCall, v)
    {
      adminId := Convert(IntCall, v);
    }

    /** save_users: the distinct convertible entries, in first-occurrence order, replace the file. */
    method SaveUsers(users: seq<Json>)
      modifies this`usersFile
      ensures usersFile == Some(Payload(Normalized(IntCall, users)))
      ensures Users() == Normalized(IntCall, users)
    {
      var normalized := Normalize(IntCall, users);
      usersFile := Some(Payload(normalized));
      LoadAfterSave(UserEntry, users);
    }

    /** save_chats, as save_users. */
    method SaveChats(chats: seq<Json>)
      modifies this`chatsFile
      ensures chatsFile == Some(Payload(Normalized(IntCall, chats)))
      ensures Chats() == Normalized(IntCall, chats)
    {
      var normalized := Normalize(IntCall, chats);
      chatsFile := Some(Payload(normalized));
      LoadAfterSave(ChatEntry, chats);
    }

    /** broadcast_message; `failing` holds the ids whose send raises. */
    method Broadcast(failing: set<int>) returns (r: BroadcastResult)
      ensures !botSet ==> r == BotNotSet
      ensures botSet ==> r == Delivered(Only(Plan(adminId, Users(), Chats()), failing, false),
                                        Only(Plan(adminId, Users(), Chats()), failing, true))
    {
      if !botSet {
        return BotNotSet;
      }
      var users := LoadList(UserEntry, usersFile);
      var chats := LoadList(ChatEntry, chatsFile);
      var targets: seq<Target> := [];
      if adminId.Some? && adminId.value !in users && adminId.value !in chats {
        targets := targets + [Target(UserTarget, adminId.value)];
      }
      targets := targets + UserTargets(users) + ChatTargets(chats);
      assert targets == Targets(adminId, users, chats);
      var sent, failed := SendAll(targets, failing);
      r := Delivered(sent, failed);
    }

    /** add_group_chat: False when the id is already saved, otherwise it is appended and saved. */
    method AddGroupChat(chatId: int) returns (added: bool)
      modifies this`chatsFile
      ensures added == (chatId !in old(Chats()))
      ensures !added ==> chatsFile == old(chatsFile)
      ensures added ==> chatsFile == Some(Payload(old(Chats()) + [chatId])) && Chats() == old(Chats()) + [chatId]
    {
      var chats := LoadList(ChatEntry, chatsFile);
      if chatId in chats {
        return false;
      }
      chats := chats + [chatId];
      NormalizedInts(chats);
      SaveChats(Ints(chats));
      added := true;
    }

    /** _add_group_chat_handler: parse the target, then add it as add_group_chat does. */
    method AddGroupChatHandler(m: Message) returns (r: AddChatResult)
      modifies this`chatsFile
      ensures ParseInt(HandlerTarget(m)).None? ==> r == InvalidChatId && chatsFile == old(chatsFile)
      ensures ParseInt(HandlerTarget(m)).Some? ==>
        var id := ParseInt(HandlerTarget(m)).value;
        if id in old(Chats()) then r == AlreadyExists(id) && chatsFile == old(chatsFile)
        else r == Added(id) && chatsFile == Some(Payload(old(Chats()) + [id])) && Chats() == old(Chats()) + [id]
    {
      var parts := SplitOnce(TextOf(m));
      var target: string;
      if |parts| > 1 {
        target := Strip(parts[1]);
      } else if m.replyTo.Some? {
        target := IntToDecimal(if m.replyTo.value.chat.Some? then m.replyTo.value.chat.value else m.chatId);
      } else {
        target := IntToDecimal(m.chatId);
      }
      var chatId := ParseInt(target);
      if chatId.None? {
        return InvalidChatId;
      }
      var added := AddGroupChat(chatId.value);
      r := if added then Added(chatId.value) else AlreadyExists(chatId.value);
    }
  }
}
