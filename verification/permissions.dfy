/**
  The user-permission checker: the host account, the list of additional admins,
  and the five-minute cache of group-admin lookups, together with the ladder that
  decides a caller's tier ("super-user", "admin" or "user").

  The group metadata lookup is an oracle passed in by the caller; the cache's
  timer is replaced by comparing the entry's age with `now` (milliseconds) when
  it is read.
 */
module Permissions {
  import opened Wrappers
  import opened JsString
  import opened Command

  /** How long a group-admin verdict is cached, in milliseconds (five minutes). */
  const ADMIN_CACHE_TTL := 5 * 60 * 1000

  datatype Cached = Cached(isAdmin: bool, at: int)

  /** The checker's state; `host` is "" until the host account is set. */
  datatype Checker = Checker(host: string, admins: seq<string>, cache: map<string, Cached>)

  /** A checker starts with no host and the saved admin list, if one was readable and was an array. */
  function NewChecker(saved: Option<seq<string>>): (p: Checker)
    ensures p.host == "" && p.cache == map[]
    ensures p.admins == (if saved.Some? then saved.value else [])
  {
    Checker("", saved.GetOr([]), map[])
  }

  /** The part of a JID before its first ':' (the device/session suffix dropped). */
  function CleanJid(jid: string): (r: string)
    ensures ':' !in r && StartsWith(jid, r)
    ensures ':' !in jid <==> r == jid
  {
    HeadBefore(jid, ':')
  }

  /** Cleaning a cleaned JID changes nothing. */
  lemma CleanJidIdempotent(jid: string)
    ensures CleanJid(CleanJid(jid)) == CleanJid(jid)
  {
  }

  /** `setHostAccount(jid)` */
  function SetHostAccount(p: Checker, jid: string): (r: Checker)
    ensures ':' !in r.host && StartsWith(jid, r.host)
    ensures |r.host| < |jid| ==> jid[|r.host|] == ':'
    ensures r.admins == p.admins && r.cache == p.cache
  {
    p.(host := CleanJid(jid))
  }

  // ---------------------------------------------------------------- group admins

  function CacheKey(groupId: string, userId: string): string {
    groupId + "-" + userId
  }

  /**
    The cache key identifies the pair as long as user ids carry no '-': the
    last '-' of the key is the separator.
   */
  lemma CacheKeyInjective(g1: string, u1: string, g2: string, u2: string)
    requires '-' !in u1 && '-' !in u2
    requires CacheKey(g1, u1) == CacheKey(g2, u2)
    ensures g1 == g2 && u1 == u2
  {
    var k := CacheKey(g1, u1);
    SeparatorIsLastDash(g1, u1);
    SeparatorIsLastDash(g2, u2);
    if |u1| == |u2| {
      assert u1 == k[|k| - |u1|..] == u2;
      assert g1 == k[..|g1|] == g2;
    }
  }

  lemma SeparatorIsLastDash(g: string, u: string)
    requires '-' !in u
    ensures var k := CacheKey(g, u);
      k[|g|] == '-' && forall i :: |g| < i < |k| ==> k[i] != '-'
  {
    var k := CacheKey(g, u);
    forall i | |g| < i < |k| ensures k[i] != '-' {
      assert k[i] == u[i - |g| - 1];
    }
  }

  /** A group participant; `admin` is "" when the participant holds no admin role. */
  datatype Participant = Participant(id: string, admin: string)

  /** What `sock.groupMetadata(groupId)` yields: the participants, or a failure. */
  datatype Metadata = MetadataFails | Metadata(participants: seq<Participant>)

  /** `participants.find(p => p.id === userId)` */
  function FindParticipant(ps: seq<Participant>, id: string): (r: Option<nat>)
    ensures r.Some? ==> r.value < |ps| && ps[r.value].id == id && forall j :: 0 <= j < r.value ==> ps[j].id != id
    ensures r.None? ==> forall j :: 0 <= j < |ps| ==> ps[j].id != id
  {
    if |ps| == 0 then None
    else if ps[0].id == id then Some(0)
    else match FindParticipant(ps[1..], id)
      case None => None
      case Some(i) => Some(i + 1)
  }

  predicate AdminRole(role: string) {
    role == "admin" || role == "superadmin"
  }

  /** Whether the cache answers for `key` at `now`. */
  predicate CacheHit(p: Checker, key: string, now: int) {
    key in p.cache && now < p.cache[key].at + ADMIN_CACHE_TTL
  }

  /**
    `isGroupAdmin(groupId, userId)`: a live cache entry answers; otherwise the
    metadata decides and the verdict is cached; a failed lookup answers false
    and caches nothing.
   */
  function IsGroupAdmin(p: Checker, groupId: string, userId: string, now: int, meta: Metadata): (res: (bool, Checker))
    ensures var key := CacheKey(groupId, userId);
      && (CacheHit(p, key, now) ==> res == (p.cache[key].isAdmin, p))
      && (!CacheHit(p, key, now) && meta.MetadataFails? ==> res == (false, p))
      && (!CacheHit(p, key, now) && meta.Metadata? ==>
            && (res.0 <==> exists i :: 0 <= i < |meta.participants|
                                     && meta.participants[i].id == userId
                                     && (forall j :: 0 <= j < i ==> meta.participants[j].id != userId)
                                     && AdminRole(meta.participants[i].admin))
            && res.1 == p.(cache := p.cache[key := Cached(res.0, now)]))
    ensures res.1.host == p.host && res.1.admins == p.admins
  {
    var key := CacheKey(groupId, userId);
    if CacheHit(p, key, now) then (p.cache[key].isAdmin, p)
    else match meta
      case MetadataFails => (false, p)
      case Metadata(ps) =>
        var found := FindParticipant(ps, userId);
        var isAdmin := found.Some? && AdminRole(ps[found.value].admin);
        (isAdmin, p.(cache := p.cache[key := Cached(isAdmin, now)]))
  }

  /**
    Within five minutes of a lookup the same question gets the same answer,
    whatever the group's metadata says by then (or if it cannot be fetched).
   */
  lemma CachedVerdictRepeats(p: Checker, groupId: string, userId: string, t: int, t2: int,
                             meta: Metadata, meta2: Metadata)
    requires !CacheHit(p, CacheKey(groupId, userId), t) && meta.Metadata?
    requires t <= t2 < t + ADMIN_CACHE_TTL
    ensures var (v, p1) := IsGroupAdmin(p, groupId, userId, t, meta);
      IsGroupAdmin(p1, groupId, userId, t2, meta2) == (v, p1)
  {
  }

  /**
    Once five minutes have passed the cached verdict no longer answers: the
    metadata is consulted again, giving the verdict (and, when it can be
    fetched, the cache) a lookup would give had the first one never happened.
   */
  lemma VerdictExpires(p: Checker, groupId: string, userId: string, t: int, t2: int,
                       meta: Metadata, meta2: Metadata)
    requires !CacheHit(p, CacheKey(groupId, userId), t) && meta.Metadata?
    requires t2 >= t + ADMIN_CACHE_TTL
    ensures var (_, p1) := IsGroupAdmin(p, groupId, userId, t, meta);
      && !CacheHit(p1, CacheKey(groupId, userId), t2)
      && IsGroupAdmin(p1, groupId, userId, t2, meta2).0 == IsGroupAdmin(p, groupId, userId, t2, meta2).0
      && (meta2.Metadata? ==> IsGroupAdmin(p1, groupId, userId, t2, meta2) == IsGroupAdmin(p, groupId, userId, t2, meta2))
    ensures var (_, p1) := IsGroupAdmin(p, groupId, userId, t, meta);
      IsGroupAdmin(p1, groupId, userId, t2, MetadataFails).0 == false
  {
    var key := CacheKey(groupId, userId);
    var (_, p1) := IsGroupAdmin(p, groupId, userId, t, meta);
    if meta2.Metadata? {
      var v2 := IsGroupAdmin(p, groupId, userId, t2, meta2).0;
      assert p1.cache[key := Cached(v2, t2)] == p.cache[key := Cached(v2, t2)];
    }
  }

  // ---------------------------------------------------------------- user type

  /** The parts of a message the ladder reads; "" stands for a missing sender or chat id. */
  datatype Caller = Caller(senderId: string, fromMe: bool, chatId: string)

  predicate IsSuperUser(p: Checker, m: Caller) {
    m.fromMe || m.senderId == p.host || CleanJid(m.senderId) == CleanJid(p.host)
  }

  predicate ListedAdmin(p: Checker, m: Caller) {
    m.senderId in p.admins || CleanJid(m.senderId) in p.admins
  }

  /**
    `getUserType(message)`: the messages of the bot itself and of the host
    account (ignoring device suffixes) are super-user; listed admins and, in a
    group, the group's admins are admin; everybody else is user. Only the group
    lookup can change the checker (its cache).
   */
  function GetUserType(p: Checker, m: Caller, now: int, meta: Metadata): (res: (string, Checker))
    ensures res.0 == SUPER_USER || res.0 == ADMIN || res.0 == USER
    ensures res.0 == SUPER_USER <==> m.fromMe || CleanJid(m.senderId) == CleanJid(p.host)
    ensures res.0 == ADMIN <==>
      && !IsSuperUser(p, m)
      && (ListedAdmin(p, m)
          || (IsGroupChat(m.chatId) && IsGroupAdmin(p, m.chatId, m.senderId, now, meta).0))
    ensures IsSuperUser(p, m) || ListedAdmin(p, m) || !IsGroupChat(m.chatId) ==> res.1 == p
    ensures !IsSuperUser(p, m) && !ListedAdmin(p, m) && IsGroupChat(m.chatId) ==>
      res.1 == IsGroupAdmin(p, m.chatId, m.senderId, now, meta).1
    ensures res.1.host == p.host && res.1.admins == p.admins
  {
    if IsSuperUser(p, m) then (SUPER_USER, p)
    else if ListedAdmin(p, m) then (ADMIN, p)
    else if IsGroupChat(m.chatId) then
      var (isAdmin, p') := IsGroupAdmin(p, m.chatId, m.senderId, now, meta);
      (if isAdmin then ADMIN else USER, p')
    else (USER, p)
  }

  /**
    After `setHostAccount(jid)`, a message from any device of that account is
    super-user.
   */
  lemma HostAccountIsSuperUser(p: Checker, jid: string, m: Caller, now: int, meta: Metadata)
    requires CleanJid(m.senderId) == CleanJid(jid)
    ensures GetUserType(SetHostAccount(p, jid), m, now, meta).0 == SUPER_USER
  {
    CleanJidIdempotent(jid);
  }

  /**
    Until the host account is set, the ladder compares the sender with "": a
    message whose sender id is missing, or starts with ':', counts as the host
    and is super-user.
   */
  lemma UnsetHostMatchesEmptySender(p: Checker, m: Caller, now: int, meta: Metadata)
    requires p.host == ""
    requires m.senderId == "" || m.senderId[0] == ':'
    ensures GetUserType(p, m, now, meta).0 == SUPER_USER
  {
  }

  // ---------------------------------------------------------------- admin list

  /** `addAdmin(jid)`: appended unless already listed. */
  function AddAdmin(p: Checker, jid: string): (r: Checker)
    ensures jid in p.admins ==> r == p
    ensures jid !in p.admins ==> r.admins == p.admins + [jid]
    ensures forall x :: x in r.admins <==> x in p.admins || x == jid
    ensures r.host == p.host && r.cache == p.cache
  {
    if jid in p.admins then p else p.(admins := p.admins + [jid])
  }

  lemma AddAdminIdempotent(p: Checker, jid: string)
    ensures AddAdmin(AddAdmin(p, jid), jid) == AddAdmin(p, jid)
  {
  }

  /** `additionalAdmins.indexOf(jid)` */
  function FirstIndex(xs: seq<string>, x: string): (r: Option<nat>)
    ensures r.Some? ==> r.value < |xs| && xs[r.value] == x && x !in xs[..r.value]
    ensures r.None? <==> x !in xs
  {
    if |xs| == 0 then None
    else if xs[0] == x then Some(0)
    else match FirstIndex(xs[1..], x)
      case None => None
      case Some(i) =>
        assert xs[..i + 1] == [xs[0]] + xs[1..][..i];
        Some(i + 1)
  }

  /** `removeAdmin(jid)`: the first occurrence is spliced out, the rest keep their order. */
  function RemoveAdmin(p: Checker, jid: string): (r: Checker)
    ensures jid !in p.admins ==> r == p
    ensures jid in p.admins ==>
      exists i :: 0 <= i < |p.admins| && p.admins[i] == jid && jid !in p.admins[..i]
                  && r.admins == p.admins[..i] + p.admins[i + 1..]
    ensures multiset(r.admins) == multiset(p.admins) - multiset{jid}
    ensures r.host == p.host && r.cache == p.cache
  {
    match FirstIndex(p.admins, jid)
    case None => p
    case Some(i) =>
      assert p.admins == p.admins[..i] + [jid] + p.admins[i + 1..];
      p.(admins := p.admins[..i] + p.admins[i + 1..])
  }

  /** Adding a new admin and removing them again restores the checker. */
  lemma AddThenRemove(p: Checker, jid: string)
    requires jid !in p.admins
    ensures RemoveAdmin(AddAdmin(p, jid), jid) == p
  {
    var q := AddAdmin(p, jid);
    assert q.admins[..|p.admins|] == p.admins;
    assert FirstIndex(q.admins, jid) == Some(|p.admins|);
  }

  datatype AdminList = AdminList(superUser: seq<string>, admins: seq<string>)

  /** `listAdmins()`: the host (if set) as the super-user, and a copy of the admin list. */
  function ListAdmins(p: Checker): (l: AdminList)
    ensures p.host == "" <==> l.superUser == []
    ensures p.host != "" ==> l.superUser == [p.host]
    ensures l.admins == p.admins
  {
    AdminList(if p.host != "" then [p.host] else [], p.admins)
  }
}
