/** Websocket subscriptions: which groups a channel belongs to, and which its session remembers. */
module ChannelGroups {
  import opened Wrappers

  type Channel = nat
  type Oid = string

  /** Group names whose members need access to the object they name. */
  const RESTRICTED: set<string> := {"job_events", "workflow_events", "ad_hoc_command_events"}

  datatype Verdict = Allowed | Denied | Raises

  /** What can be done with names and ids: whether a name and an id can be put together (a byte string takes no text
      beyond ASCII), whether the channel layer takes a group name, and what the access class says of an object id,
      which raises if it cannot be looked up. */
  datatype Access = Access(
    formats: (string, Oid) -> bool,
    joins: string -> bool,
    allows: (string, Oid) -> Verdict)

  datatype Wanted = Ids(oids: seq<Oid>) | Whole

  /** A message: the token it carries, and the groups it names, each name once. */
  datatype Message = Message(xrf: Option<string>, groups: Option<seq<(string, Wanted)>>)

  datatype Session = Session(xrf: Option<string>, groups: Option<set<string>>)

  datatype State = State(members: set<(string, Channel)>, sessions: map<Channel, Session>) {
    function Of(ch: Channel): set<string> {
      set m | m in members && m.1 == ch :: m.0
    }

    function SessionOf(ch: Channel): Session {
      if ch in sessions then sessions[ch] else Session(None, None)
    }

    function Recorded(ch: Channel): set<string> {
      match SessionOf(ch).groups
      case Some(groups) => groups
      case None => {}
    }

    /** The session remembers every group its channel is in. */
    ghost predicate Remembers(ch: Channel) {
      Of(ch) <= Recorded(ch)
    }
  }

  // ---------------------------------------------------------------- what a message grants

  function GroupName(name: string, oid: Oid): string {
    name + "-" + oid
  }

  /** The id can be put together with the name, its sender has access where that is asked for, and the group can be
      joined. */
  ghost predicate Grants(access: Access, name: string, oid: Oid) {
    && access.formats(name, oid)
    && (name in RESTRICTED ==> access.allows(name, oid) == Allowed)
    && access.joins(name + "-" + oid)
  }

  /** One of these three raises, the ones before it having gone well. */
  ghost predicate Fails(access: Access, name: string, oid: Oid) {
    || !access.formats(name, oid)
    || (name in RESTRICTED && access.allows(name, oid) == Raises)
    || ((name in RESTRICTED ==> access.allows(name, oid) == Allowed) && !access.joins(name + "-" + oid))
  }

  /** An id listed under a name: the two are put together first, then access is asked for, then the group joined. */
  function Judge(access: Access, name: string, oid: Oid): (v: Verdict)
    ensures v == Allowed <==> Grants(access, name, oid)
    ensures v == Raises <==> Fails(access, name, oid)
  {
    if !access.formats(name, oid) then Raises
    else if name in RESTRICTED && !access.allows(name, oid).Allowed? then access.allows(name, oid)
    else JudgeWhole(access, GroupName(name, oid))
  }

  /** A name that stands for itself is joined unasked. */
  function JudgeWhole(access: Access, name: string): (v: Verdict)
    ensures v == if access.joins(name) then Allowed else Raises
  {
    if access.joins(name) then Allowed else Raises
  }

  /** The groups joined, and whether the loop ended in an exception. */
  datatype Pass = Pass(names: set<string>, raised: bool)

  function PassIds(access: Access, name: string, oids: seq<Oid>): Pass {
    if oids == [] then Pass({}, false)
    else if Judge(access, name, oids[0]).Raises? then Pass({}, true)
    else
      var rest := PassIds(access, name, oids[1..]);
      if Judge(access, name, oids[0]).Denied? then rest
      else rest.(names := rest.names + {GroupName(name, oids[0])})
  }

  function PassOne(access: Access, wanted: (string, Wanted)): Pass {
    match wanted.1
    case Ids(oids) => PassIds(access, wanted.0, oids)
    case Whole => if JudgeWhole(access, wanted.0).Raises? then Pass({}, true) else Pass({wanted.0}, false)
  }

  function PassAll(access: Access, groups: seq<(string, Wanted)>): Pass {
    if groups == [] then Pass({}, false)
    else
      var first := PassOne(access, groups[0]);
      if first.raised then first
      else
        var rest := PassAll(access, groups[1..]);
        rest.(names := first.names + rest.names)
  }

  /** The message asks for the group, and its sender may join it. */
  ghost predicate Entitles(access: Access, groups: seq<(string, Wanted)>, group: string) {
    exists g :: g in groups &&
      match g.1
      case Whole => access.joins(g.0) && group == g.0
      case Ids(oids) => exists oid :: oid in oids && Grants(access, g.0, oid) && group == g.0 + "-" + oid
  }

  /** A name that cannot be joined, or one of its ids that cannot be put together with it, looked up, or joined. */
  ghost predicate RaisesIn(access: Access, wanted: (string, Wanted)) {
    match wanted.1
    case Whole => !access.joins(wanted.0)
    case Ids(oids) => exists oid :: oid in oids && Fails(access, wanted.0, oid)
  }

  ghost predicate SomeRaises(access: Access, groups: seq<(string, Wanted)>) {
    exists g :: g in groups && RaisesIn(access, g)
  }

  lemma {:induction false} PassIdsExactly(access: Access, name: string, oids: seq<Oid>)
    ensures PassIds(access, name, oids).raised <==> exists oid :: oid in oids && Judge(access, name, oid).Raises?
    ensures !PassIds(access, name, oids).raised ==>
              forall group :: group in PassIds(access, name, oids).names <==>
                exists oid :: oid in oids && Judge(access, name, oid).Allowed? && group == GroupName(name, oid)
  {
    if oids != [] {
      PassIdsExactly(access, name, oids[1..]);
      assert oids[0] in oids && forall oid :: oid in oids <==> oid == oids[0] || oid in oids[1..];
    }
  }

  /** The loop raises exactly when some name or id does, and otherwise joins exactly what the message asks for
      and its sender may have. */
  lemma {:induction false} PassAllExactly(access: Access, groups: seq<(string, Wanted)>)
    ensures PassAll(access, groups).raised <==> SomeRaises(access, groups)
    ensures !PassAll(access, groups).raised ==>
              forall group :: group in PassAll(access, groups).names <==> Entitles(access, groups, group)
  {
    if groups != [] {
      var first, rest := groups[0], groups[1..];
      if first.1.Ids? {
        PassIdsExactly(access, first.0, first.1.oids);
      }
      PassAllExactly(access, rest);
      RaisesSplit(access, groups);
      forall group
        ensures Entitles(access, groups, group) <==> Entitles(access, [first], group) || Entitles(access, rest, group)
      {
        EntitlesSplit(access, groups, group);
      }
      if !PassOne(access, first).raised {
        forall group ensures group in PassOne(access, first).names <==> Entitles(access, [first], group) {
        }
      }
    }
  }

  lemma EntitlesSplit(access: Access, groups: seq<(string, Wanted)>, group: string)
    requires groups != []
    ensures Entitles(access, groups, group) <==>
            Entitles(access, [groups[0]], group) || Entitles(access, groups[1..], group)
  {
    assert forall g :: g in groups <==> g in [groups[0]] || g in groups[1..];
  }

  lemma RaisesSplit(access: Access, groups: seq<(string, Wanted)>)
    requires groups != []
    ensures SomeRaises(access, groups) <==> PassOne(access, groups[0]).raised || SomeRaises(access, groups[1..])
  {
    var first := groups[0];
    assert forall g :: g in groups <==> g == first || g in groups[1..];
    if first.1.Ids? {
      PassIdsExactly(access, first.0, first.1.oids);
    }
    assert RaisesIn(access, first) <==> PassOne(access, first).raised;
    assert first in groups;
  }

  // ---------------------------------------------------------------- the same, name by name

  /** One group to join: a whole name, or a name with an id. */
  datatype Item = Item(name: string, oid: Option<Oid>) {
    function Group(): string {
      if oid.None? then name else GroupName(name, oid.value)
    }

    /** Nothing is asked about a whole name, nor about an id under a name that is not restricted. */
    predicate Unchecked() { oid.None? || name !in RESTRICTED }

    ghost predicate Granted(access: Access) {
      if oid == None then access.joins(name) else Grants(access, name, oid.value)
    }

    ghost predicate Failing(access: Access) {
      if oid == None then !access.joins(name) else Fails(access, name, oid.value)
    }

    function Judged(access: Access): (v: Verdict)
      ensures v == Allowed <==> Granted(access)
      ensures v == Raises <==> Failing(access)
    {
      if oid.None? then JudgeWhole(access, name) else Judge(access, name, oid.value)
    }
  }

  function IdItems(name: string, oids: seq<Oid>): seq<Item> {
    if oids == [] then [] else [Item(name, Some(oids[0]))] + IdItems(name, oids[1..])
  }

  function ItemsOf(wanted: (string, Wanted)): seq<Item> {
    match wanted.1
    case Ids(oids) => IdItems(wanted.0, oids)
    case Whole => [Item(wanted.0, None)]
  }

  /** Everything a message names, in the order the loops come to it. */
  function Items(groups: seq<(string, Wanted)>): seq<Item> {
    if groups == [] then [] else ItemsOf(groups[0]) + Items(groups[1..])
  }

  function PassItems(access: Access, items: seq<Item>): Pass {
    if items == [] then Pass({}, false)
    else if items[0].Judged(access).Raises? then Pass({}, true)
    else
      var rest := PassItems(access, items[1..]);
      if items[0].Judged(access).Denied? then rest else rest.(names := rest.names + {items[0].Group()})
  }

  lemma {:induction false} PassItemsAppend(access: Access, a: seq<Item>, b: seq<Item>)
    ensures var first := PassItems(access, a);
            PassItems(access, a + b) ==
            if first.raised then first
            else PassItems(access, b).(names := first.names + PassItems(access, b).names)
    decreases |a|
  {
    if a == [] {
      assert a + b == b;
    } else {
      assert (a + b)[1..] == a[1..] + b;
      PassItemsAppend(access, a[1..], b);
    }
  }

  lemma {:induction false} PassIdItems(access: Access, name: string, oids: seq<Oid>)
    ensures PassIds(access, name, oids) == PassItems(access, IdItems(name, oids))
  {
    if oids != [] {
      var items := IdItems(name, oids);
      assert items[1..] == IdItems(name, oids[1..]);
      PassIdItems(access, name, oids[1..]);
    }
  }

  lemma {:induction false} PassAllItems(access: Access, groups: seq<(string, Wanted)>)
    ensures PassAll(access, groups) == PassItems(access, Items(groups))
  {
    if groups != [] {
      if groups[0].1.Ids? {
        PassIdItems(access, groups[0].0, groups[0].1.oids);
      } else {
        assert ItemsOf(groups[0])[1..] == [];
      }
      PassAllItems(access, groups[1..]);
      PassItemsAppend(access, ItemsOf(groups[0]), Items(groups[1..]));
    }
  }

  /** None of the first n items raises. */
  ghost predicate Sound(access: Access, items: seq<Item>, n: nat)
    requires n <= |items|
  {
    forall i :: 0 <= i < n ==> !items[i].Failing(access)
  }

  /** Item i is joined before any item raises. */
  ghost predicate JoinedAt(access: Access, items: seq<Item>, i: nat) {
    i < |items| && Sound(access, items, i) && items[i].Granted(access)
  }

  ghost predicate JoinedAs(access: Access, items: seq<Item>, group: string) {
    exists i: nat :: JoinedAt(access, items, i) && items[i].Group() == group
  }

  ghost predicate FirstRaising(access: Access, items: seq<Item>, j: nat) {
    j < |items| && Sound(access, items, j) && items[j].Failing(access)
  }

  /** The groups joined, whether or not the message ends in an exception, are those of the allowed items before the
      first one that raises. */
  lemma {:induction false} JoinedExactly(access: Access, items: seq<Item>)
    ensures forall group :: group in PassItems(access, items).names <==> JoinedAs(access, items, group)
    ensures PassItems(access, items).raised <==> exists j: nat :: FirstRaising(access, items, j)
  {
    if items != [] {
      JoinedExactly(access, items[1..]);
      forall group ensures group in PassItems(access, items).names <==> JoinedAs(access, items, group) {
        JoinedStep(access, items, group);
      }
      RaisesStep(access, items);
    }
  }

  lemma JoinedStep(access: Access, items: seq<Item>, group: string)
    requires items != []
    ensures JoinedAs(access, items, group) <==>
            || (items[0].Granted(access) && items[0].Group() == group)
            || (!items[0].Failing(access) && JoinedAs(access, items[1..], group))
  {
    var rest := items[1..];
    if JoinedAs(access, items, group) {
      var i: nat :| JoinedAt(access, items, i) && items[i].Group() == group;
      if i > 0 {
        SoundStep(access, items, i);
        assert JoinedAt(access, rest, i - 1) && rest[i - 1].Group() == group;
      }
    }
    if items[0].Granted(access) && items[0].Group() == group {
      assert JoinedAt(access, items, 0);
    }
    if !items[0].Failing(access) && JoinedAs(access, rest, group) {
      var i: nat :| JoinedAt(access, rest, i) && rest[i].Group() == group;
      SoundStep(access, items, i + 1);
      assert JoinedAt(access, items, i + 1) && items[i + 1].Group() == group;
    }
  }

  lemma SoundStep(access: Access, items: seq<Item>, n: nat)
    requires 0 < n <= |items|
    ensures Sound(access, items, n) <==> !items[0].Failing(access) && Sound(access, items[1..], n - 1)
  {
    assert forall i :: 1 <= i < n ==> items[i] == items[1..][i - 1];
    if Sound(access, items, n) {
      assert forall i :: 0 <= i < n - 1 ==> items[1..][i] == items[i + 1];
    }
  }

  lemma RaisesStep(access: Access, items: seq<Item>)
    requires items != []
    ensures (exists j: nat :: FirstRaising(access, items, j)) <==>
            items[0].Failing(access) || exists j: nat :: FirstRaising(access, items[1..], j)
  {
    var rest := items[1..];
    if j: nat :| FirstRaising(access, items, j) {
      if j > 0 {
        SoundStep(access, items, j);
        assert FirstRaising(access, rest, j - 1);
      }
    }
    if items[0].Failing(access) {
      assert FirstRaising(access, items, 0);
    } else if j: nat :| FirstRaising(access, rest, j) {
      SoundStep(access, items, j + 1);
      assert FirstRaising(access, items, j + 1);
    }
  }

  // ---------------------------------------------------------------- restricted groups

  /** No group of a restricted name is joined without access to the object it names. */
  ghost predicate Guarded(access: Access, names: set<string>) {
    forall r, oid :: r in RESTRICTED && GroupName(r, oid) in names ==> access.allows(r, oid).Allowed?
  }

  /** No item that nothing is asked about spells a restricted group its sender may not join. */
  ghost predicate Undisguised(access: Access, items: seq<Item>) {
    forall i, r, oid ::
      (0 <= i < |items| && items[i].Unchecked() && r in RESTRICTED && items[i].Group() == GroupName(r, oid)) ==>
        access.allows(r, oid).Allowed?
  }

  lemma RestrictedNamesApart(r: string, oid: Oid, r': string, oid': Oid)
    requires r in RESTRICTED && r' in RESTRICTED && GroupName(r, oid) == GroupName(r', oid')
    ensures r == r' && oid == oid'
  {
    var g := GroupName(r, oid);
    assert g[0] == r[0] == r'[0];
    assert "job_events"[0] == 'j' && "workflow_events"[0] == 'w' && "ad_hoc_command_events"[0] == 'a';
    assert r == r';
    assert oid == g[|r| + 1..] == oid';
  }

  /** A message that is dealt with to its end joins restricted groups only with access exactly when it spells none of
      them, in a way that nothing is asked about, that its sender may not join. */
  lemma GuardedExactly(access: Access, groups: seq<(string, Wanted)>)
    requires !PassAll(access, groups).raised
    ensures Guarded(access, PassAll(access, groups).names) <==> Undisguised(access, Items(groups))
  {
    var items, names := Items(groups), PassAll(access, groups).names;
    PassAllItems(access, groups);
    JoinedExactly(access, items);
    NothingRaises(access, items);
    forall i, r, oid | Guarded(access, names) && 0 <= i < |items| && items[i].Unchecked() && r in RESTRICTED &&
                       items[i].Group() == GroupName(r, oid)
      ensures access.allows(r, oid).Allowed?
    {
      assert JoinedAt(access, items, i);
      assert JoinedAs(access, items, GroupName(r, oid));
    }
    forall r, oid | Undisguised(access, items) && r in RESTRICTED && GroupName(r, oid) in names
      ensures access.allows(r, oid).Allowed?
    {
      assert JoinedAs(access, items, GroupName(r, oid));
      var i: nat :| JoinedAt(access, items, i) && items[i].Group() == GroupName(r, oid);
      if !items[i].Unchecked() {
        RestrictedNamesApart(r, oid, items[i].name, items[i].oid.value);
      }
    }
  }

  lemma NothingRaises(access: Access, items: seq<Item>)
    requires forall j: nat :: !FirstRaising(access, items, j)
    ensures Sound(access, items, |items|)
  {
    var n := 0;
    while n < |items|
      invariant 0 <= n <= |items| && Sound(access, items, n)
    {
      assert !FirstRaising(access, items, n);
      n := n + 1;
    }
  }

  /** The events of a job can be had by naming its group as a whole, whatever the access class says of the job. */
  lemma DisguisedGroup(access: Access)
    requires access.allows("job_events", "5").Denied? && access.joins("job_events-5")
    ensures var groups := [("job_events-5", Whole)];
            && !PassAll(access, groups).raised && GroupName("job_events", "5") in PassAll(access, groups).names
            && !Guarded(access, PassAll(access, groups).names)
  {
    var groups := [("job_events-5", Whole)];
    assert groups[1..] == [];
    assert GroupName("job_events", "5") == "job_events-5";
    assert "job_events" in RESTRICTED;
  }

  // ---------------------------------------------------------------- the handlers

  function Joined(ch: Channel, names: set<string>): set<(string, Channel)> {
    set n | n in names :: (n, ch)
  }

  function DiscardGroups(s: State, ch: Channel): State {
    s.(members := s.members - Joined(ch, s.Recorded(ch)))
  }

  predicate Accepts(s: State, ch: Channel, msg: Message) {
    msg.xrf.Some? && msg.xrf.value != "" && s.SessionOf(ch).xrf == msg.xrf
  }

  /** The state after a message; an exception on the way keeps what was done, and what the session had forgotten. */
  function Received(s: State, ch: Channel, msg: Message, access: Access): State {
    if !Accepts(s, ch, msg) || msg.groups.None? then s
    else
      var pass := PassAll(access, msg.groups.value);
      State(DiscardGroups(s, ch).members + Joined(ch, pass.names),
            s.sessions[ch := s.SessionOf(ch).(
              groups := if pass.raised then None else Some(s.Recorded(ch) + pass.names))])
  }

  /** Both the session and the message carry one and the same token, and it is not empty. */
  ghost predicate SameToken(s: State, ch: Channel, msg: Message) {
    && msg.xrf != None && msg.xrf != Some("")
    && ch in s.sessions && s.sessions[ch].xrf == msg.xrf
  }

  /** A message without a token, or with another than the session's, changes nothing. */
  lemma MismatchRefused(s: State, ch: Channel, msg: Message, access: Access)
    requires msg.xrf == None || msg.xrf == Some("") || ch !in s.sessions || s.sessions[ch].xrf == None ||
             s.sessions[ch].xrf != msg.xrf
    ensures Received(s, ch, msg, access) == s
    ensures !SameToken(s, ch, msg)
  {
  }

  /** An authenticated connection's cookie token is kept for later comparison. */
  function Connected(s: State, ch: Channel, token: Option<string>): State {
    if token.Some? && token.value != "" then s.(sessions := s.sessions[ch := s.SessionOf(ch).(xrf := token)]) else s
  }

  /** A connection's token, unless it is empty, is what its later messages are compared with; nothing else changes. */
  lemma ConnectedExactly(s: State, ch: Channel, token: Option<string>, other: Channel)
    ensures Connected(s, ch, token).members == s.members
    ensures Connected(s, ch, token).SessionOf(other).groups == s.SessionOf(other).groups
    ensures Connected(s, ch, token).SessionOf(other).xrf ==
            if other == ch && token != None && token != Some("") then token else s.SessionOf(other).xrf
  {
  }

  lemma OfJoined(s: State, ch: Channel, names: set<string>, other: Channel)
    ensures State(s.members + Joined(ch, names),
                  s.sessions).Of(other) == s.Of(other) + (if other == ch then names else {})
    ensures State(s.members - Joined(ch, names),
                  s.sessions).Of(other) == s.Of(other) - (if other == ch then names else {})
  {
    InGroup(s, other);
    InGroup(State(s.members + Joined(ch, names), s.sessions), other);
    InGroup(State(s.members - Joined(ch, names), s.sessions), other);
  }

  lemma InGroup(s: State, ch: Channel)
    ensures forall g :: g in s.Of(ch) <==> (g, ch) in s.members
  {
    forall g | (g, ch) in s.members ensures g in s.Of(ch) {
      assert (g, ch).0 == g && (g, ch).1 == ch;
    }
  }

  lemma ReceivedOf(s: State, ch: Channel, msg: Message, access: Access, other: Channel)
    requires Accepts(s, ch, msg) && msg.groups.Some?
    ensures Received(s, ch, msg, access).Of(other) ==
            if other == ch then s.Of(ch) - s.Recorded(ch) + PassAll(access, msg.groups.value).names else s.Of(other)
  {
    var after := Received(s, ch, msg, access);
    OfJoined(s, ch, s.Recorded(ch), other);
    OfJoined(DiscardGroups(s, ch), ch, PassAll(access, msg.groups.value).names, other);
    InGroup(after, other);
  }

  /** After a message that names groups and is dealt with to its end, a channel whose session remembered its groups
      is in exactly those the message asks for and its sender may join, and its session remembers them. */
  lemma SubscribedExactly(s: State, ch: Channel, msg: Message, access: Access, group: string)
    requires s.Remembers(ch) && SameToken(s, ch, msg) && msg.groups.Some? && !SomeRaises(access, msg.groups.value)
    ensures group in Received(s, ch, msg, access).Of(ch) <==> Entitles(access, msg.groups.value, group)
    ensures Received(s, ch, msg, access).Remembers(ch)
  {
    ReceivedOf(s, ch, msg, access, ch);
    PassAllExactly(access, msg.groups.value);
  }

  /** Whatever a message does, it does to its own channel. */
  lemma OthersUntouched(s: State, ch: Channel, msg: Message, access: Access, other: Channel)
    requires other != ch
    ensures Received(s, ch, msg, access).Of(other) == s.Of(other)
    ensures Received(s, ch, msg, access).SessionOf(other) == s.SessionOf(other)
    ensures DiscardGroups(s, ch).Of(other) == s.Of(other)
  {
    if Accepts(s, ch, msg) && msg.groups.Some? {
      ReceivedOf(s, ch, msg, access, other);
    }
    OfJoined(s, ch, s.Recorded(ch), other);
  }

  /** A message makes a session forget a group exactly when it raises after a group has been joined. */
  lemma ForgetsExactly(s: State, ch: Channel, msg: Message, access: Access)
    requires s.Remembers(ch)
    ensures Received(s, ch, msg, access).Remembers(ch) <==> !Leaks(s, ch, msg, access)
  {
    if Accepts(s, ch, msg) && msg.groups.Some? {
      ReceivedOf(s, ch, msg, access, ch);
      assert s.Of(ch) - s.Recorded(ch) == {};
    }
  }

  predicate Leaks(s: State, ch: Channel, msg: Message, access: Access) {
    Accepts(s, ch, msg) && msg.groups.Some? &&
    var pass := PassAll(access, msg.groups.value);
    pass.raised && pass.names != {}
  }

  /** That can be told from the message: some item in it raises, and an item before the first that does, a whole name
      or an id its sender may have, is joined. */
  lemma LeaksExactly(s: State, ch: Channel, msg: Message, access: Access)
    requires SameToken(s, ch, msg) && msg.groups.Some?
    ensures var items := Items(msg.groups.value);
            Leaks(s, ch, msg, access) <==>
            exists i: nat, j: nat :: i < j && FirstRaising(access, items, j) && items[i].Granted(access)
  {
    var items := Items(msg.groups.value);
    PassAllItems(access, msg.groups.value);
    JoinedExactly(access, items);
    if Leaks(s, ch, msg, access) {
      var group :| group in PassItems(access, items).names;
      assert JoinedAs(access, items, group);
      var i: nat :| JoinedAt(access, items, i);
      var j: nat :| FirstRaising(access, items, j);
      assert i < j;
    }
    if i: nat, j: nat :| i < j && FirstRaising(access, items, j) && items[i].Granted(access) {
      assert JoinedAt(access, items, i) && JoinedAs(access, items, items[i].Group());
    }
  }

  /** A disconnected channel is in no group if and only if its session remembered them all. */
  lemma DisconnectExactly(s: State, ch: Channel)
    ensures DiscardGroups(s, ch).Of(ch) == {} <==> s.Remembers(ch)
  {
    OfJoined(s, ch, s.Recorded(ch), ch);
    if s.Remembers(ch) {
      assert s.Of(ch) - s.Recorded(ch) == {};
    } else {
      var g :| g in s.Of(ch) && g !in s.Recorded(ch);
      assert g in s.Of(ch) - s.Recorded(ch);
    }
  }

  // ---------------------------------------------------------------- runs

  datatype Event =
    | Connect(ch: Channel, token: Option<string>)
    | Receive(ch: Channel, msg: Message, access: Access)
    | Disconnect(ch: Channel)

  function Apply(s: State, e: Event): State {
    match e
    case Connect(ch, token) => Connected(s, ch, token)
    case Receive(ch, msg, access) => Received(s, ch, msg, access)
    case Disconnect(ch) => DiscardGroups(s, ch)
  }

  function Run(s: State, es: seq<Event>): State
    decreases |es|
  {
    if es == [] then s else Run(Apply(s, es[0]), es[1..])
  }

  /** A run ends with its last event. */
  lemma {:induction false} RunEnds(s: State, es: seq<Event>, e: Event)
    ensures Run(s, []) == s && Run(s, es + [e]) == Apply(Run(s, es), e)
    decreases |es|
  {
    if es == [] {
      assert [] + [e] == [e] && [e][1..] == [];
    } else {
      assert (es + [e])[1..] == es[1..] + [e];
      RunEnds(Apply(s, es[0]), es[1..], e);
    }
  }

  predicate Leakless(s: State, es: seq<Event>)
    decreases |es|
  {
    es == [] ||
    ((es[0].Receive? ==> !Leaks(s, es[0].ch, es[0].msg, es[0].access)) && Leakless(Apply(s, es[0]), es[1..]))
  }

  lemma StepRemembers(s: State, e: Event, ch: Channel)
    requires s.Remembers(ch) && (e.Receive? ==> !Leaks(s, e.ch, e.msg, e.access))
    ensures Apply(s, e).Remembers(ch)
  {
    match e
    case Connect(c, token) =>
    case Receive(c, msg, access) =>
      if c == ch {
        ForgetsExactly(s, c, msg, access);
      } else {
        OthersUntouched(s, c, msg, access, ch);
      }
    case Disconnect(c) =>
      OfJoined(s, c, s.Recorded(c), ch);
  }

  /** In every run without such a message, each session remembers all its channel's groups, so that a channel is in
      no group once it has disconnected. */
  lemma {:induction false} RunRemembers(s: State, es: seq<Event>, ch: Channel)
    requires s.Remembers(ch) && Leakless(s, es)
    ensures Run(s, es).Remembers(ch)
    ensures DiscardGroups(Run(s, es), ch).Of(ch) == {}
    decreases |es|
  {
    if es == [] {
      DisconnectExactly(s, ch);
    } else {
      StepRemembers(s, es[0], ch);
      RunRemembers(Apply(s, es[0]), es[1..], ch);
    }
  }

  /** A message that joins a group and then raises: neither the next message nor the end of the connection takes the
      channel out of it. */
  lemma LeakedForGood(token: string, access: Access)
    requires token != "" && access.joins("jobs") && Judge(access, "job_events", "x").Raises?
    ensures var s := Connected(State({}, map[]), 0, Some(token));
            var first := Message(Some(token), Some([("jobs", Whole), ("job_events", Ids(["x"]))]));
            var second := Message(Some(token), Some([]));
            var after := Received(Received(s, 0, first, access), 0, second, access);
            "jobs" in after.Of(0) && "jobs" in DiscardGroups(after, 0).Of(0)
  {
    var s := Connected(State({}, map[]), 0, Some(token));
    var groups := [("jobs", Whole), ("job_events", Ids(["x"]))];
    var first := Message(Some(token), Some(groups));
    var second := Message(Some(token), Some([]));
    assert groups[1..] == [("job_events", Ids(["x"]))];
    assert PassOne(access, groups[1]) == Pass({}, true);
    assert PassAll(access, groups[1..]) == Pass({}, true);
    assert PassAll(access, groups) == Pass({"jobs"}, true);
    var s1 := Received(s, 0, first, access);
    ReceivedOf(s, 0, first, access, 0);
    ReceivedOf(s1, 0, second, access, 0);
    OfJoined(Received(s1, 0, second, access), 0, Received(s1, 0, second, access).Recorded(0), 0);
  }

  /** No restricted name need be involved: an id beyond ASCII, listed behind another under any name, does the same. */
  lemma UnencodableIdLeaks(s: State, ch: Channel, token: string, access: Access)
    requires access.formats("x", "a") && access.joins("x-a") && !access.formats("x", "\U{E9}")
    requires token != "" && s.SessionOf(ch).xrf == Some(token)
    ensures Leaks(s, ch, Message(Some(token), Some([("x", Ids(["a", "\U{E9}"]))])), access)
  {
    var oids := ["a", "\U{E9}"];
    var groups := [("x", Ids(oids))];
    assert |"x"| == 1 && |"job_events"| == 10 && |"workflow_events"| == 15 && |"ad_hoc_command_events"| == 21;
    assert "x" !in RESTRICTED;
    assert GroupName("x", "a") == "x-a";
    assert oids[1..] == ["\U{E9}"];
    assert PassIds(access, "x", oids[1..]) == Pass({}, true);
    assert PassIds(access, "x", oids) == Pass({"x-a"}, true);
    assert PassAll(access, groups) == PassOne(access, groups[0]);
  }

  class Consumers {
    var members: set<(string, Channel)>
    var sessions: map<Channel, Session>

    function S(): State
      reads this
    {
      State(members, sessions)
    }

    constructor ()
      ensures S() == State({}, map[])
    {
      members, sessions := {}, map[];
    }

    method Discard(ch: Channel)
      modifies this`members
      ensures S() == DiscardGroups(old(S()), ch)
    {
      var todo := S().Recorded(ch);
      ghost var all := todo;
      while todo != {}
        invariant todo <= all && members == old(members) - Joined(ch, all - todo)
        decreases todo
      {
        var g :| g in todo;
        members := members - {(g, ch)};
        todo := todo - {g};
      }
      assert all - todo == all;
    }

    method WsConnect(ch: Channel, token: Option<string>)
      modifies this`sessions
      ensures S() == Connected(old(S()), ch, token)
    {
      if token.Some? && token.value != "" {
        sessions := sessions[ch := S().SessionOf(ch).(xrf := token)];
      }
    }

    method WsDisconnect(ch: Channel)
      modifies this`members
      ensures S() == DiscardGroups(old(S()), ch)
    {
      Discard(ch);
    }

    /** The ids listed under one name. */
    method JoinIds(ch: Channel, name: string, oids: seq<Oid>, access: Access) returns (names: set<string>, raised: bool)
      modifies this`members
      ensures Pass(names, raised) == PassIds(access, name, oids)
      ensures members == old(members) + Joined(ch, names)
    {
      names, raised := {}, false;
      var i := 0;
      while i < |oids|
        invariant 0 <= i <= |oids|
        invariant PassIds(access, name, oids) ==
                  Pass(names + PassIds(access, name, oids[i..]).names, PassIds(access, name, oids[i..]).raised)
        invariant members == old(members) + Joined(ch, names)
      {
        var verdict := Judge(access, name, oids[i]);
        if verdict.Raises? {
          return names, true;
        }
        if verdict.Allowed? {
          names := names + {GroupName(name, oids[i])};
          members := members + {(GroupName(name, oids[i]), ch)};
        }
        i := i + 1;
      }
    }

    method JoinAll(ch: Channel, groups: seq<(string, Wanted)>, access: Access)
      returns (names: set<string>, raised: bool)
      modifies this`members
      ensures Pass(names, raised) == PassAll(access, groups)
      ensures members == old(members) + Joined(ch, names)
    {
      names, raised := {}, false;
      var i := 0;
      while i < |groups|
        invariant 0 <= i <= |groups|
        invariant PassAll(access, groups) ==
                  Pass(names + PassAll(access, groups[i..]).names, PassAll(access, groups[i..]).raised)
        invariant members == old(members) + Joined(ch, names)
      {
        var got, failed := JoinOne(ch, groups[i], access);
        names := names + got;
        if failed {
          return names, true;
        }
        i := i + 1;
      }
    }

    method JoinOne(ch: Channel, wanted: (string, Wanted), access: Access) returns (names: set<string>, raised: bool)
      modifies this`members
      ensures Pass(names, raised) == PassOne(access, wanted)
      ensures members == old(members) + Joined(ch, names)
    {
      match wanted.1
      case Ids(oids) =>
        names, raised := JoinIds(ch, wanted.0, oids, access);
      case Whole =>
        names, raised := {}, JudgeWhole(access, wanted.0).Raises?;
        if !raised {
          names := {wanted.0};
          members := members + {(wanted.0, ch)};
        }
    }

    /** The session's groups are taken out before the loop and put back after it, so an exception loses them. */
    method WsReceive(ch: Channel, msg: Message, access: Access)
      modifies this
      ensures S() == Received(old(S()), ch, msg, access)
      ensures msg.xrf == None || msg.xrf == Some("") || ch !in old(sessions) || old(sessions)[ch].xrf != msg.xrf ==>
                members == old(members) && sessions == old(sessions)
    {
      var session := S().SessionOf(ch);
      if msg.xrf.None? || msg.xrf.value == "" || session.xrf.None? || msg.xrf != session.xrf {
        return;
      }
      if msg.groups.None? {
        return;
      }
      Discard(ch);
      var current := S().Recorded(ch);
      sessions := sessions[ch := session.(groups := None)];
      var names, raised := JoinAll(ch, msg.groups.value, access);
      if !raised {
        sessions := sessions[ch := session.(groups := Some(current + names))];
      }
    }
  }
}
