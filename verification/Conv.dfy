/** Canonical conversation ids: internal/service/conv.go, and the id check of sendMsg. */
module Conv {
  import opened Common
  import opened Decimal

  function P2PId(a: int64, b: int64): string {
    if a > b then "c" + ":" + FormatInt(b) + ":" + FormatInt(a)
    else "c" + ":" + FormatInt(a) + ":" + FormatInt(b)
  }

  function GroupId(gid: int64): string { "g" + ":" + FormatInt(gid) }

  function ParseP2P(conv: string): (r: Option<(int64, int64)>)
    ensures r.Some? ==> r.value.0 < r.value.1
  {
    var parts := Split(conv);
    if |parts| != 3 || parts[0] != "c" then None
    else
      match (ParseInt(parts[1]), ParseInt(parts[2]))
      case (Some(a), Some(b)) => if a >= b then None else Some((a, b))
      case _ => None
  }

  function ParseGroup(conv: string): (r: Option<int64>)
    ensures r.Some? ==> r.value > 0
  {
    var parts := Split(conv);
    if |parts| != 2 || parts[0] != "g" then None
    else
      match ParseInt(parts[1])
      case Some(gid) => if gid <= 0 then None else Some(gid)
      case None => None
  }

  /** Lines 107-121 of sendMsg: parse, find the peer, recompute, compare. */
  function CheckP2P(sender: int64, conv: string): Option<int64> {
    match ParseP2P(conv)
    case None => None
    case Some((a, b)) =>
      if sender != a && sender != b then None
      else
        var peer := if sender == a then b else a;
        if P2PId(sender, peer) != conv then None else Some(peer)
  }

  /** Lines 123-132 of sendMsg. */
  function CheckGroup(conv: string): Option<int64> {
    match ParseGroup(conv)
    case None => None
    case Some(gid) => if GroupId(gid) != conv then None else Some(gid)
  }

  lemma SplitLast(s: string)
    requires ':' !in s
    ensures Split(s) == [s]
  {
  }

  lemma SplitP2P(lo: int64, hi: int64)
    ensures Split("c" + ":" + FormatInt(lo) + ":" + FormatInt(hi)) == ["c", FormatInt(lo), FormatInt(hi)]
  {
    FormatIntHasNoColon(lo);
    FormatIntHasNoColon(hi);
    hide FormatInt;
    SplitCons(FormatInt(lo), FormatInt(hi));
    SplitCons("c", FormatInt(lo) + ":" + FormatInt(hi));
    SplitLast(FormatInt(hi));
    hide Split;
    assert "c" + ":" + (FormatInt(lo) + ":" + FormatInt(hi)) == "c" + ":" + FormatInt(lo) + ":" + FormatInt(hi);
  }

  lemma ParsePrinted(lo: int64, hi: int64)
    ensures ParseP2P("c" + ":" + FormatInt(lo) + ":" + FormatInt(hi)) == if lo < hi then Some((lo, hi)) else None
  {
    SplitP2P(lo, hi);
    ParseFormat(lo);
    ParseFormat(hi);
    var parts := Split("c" + ":" + FormatInt(lo) + ":" + FormatInt(hi));
    assert ParseInt(parts[1]) == Some(lo) && ParseInt(parts[2]) == Some(hi);
  }

  /** Printing then parsing a pair gives it back in ascending order; a self-pair is refused. */
  lemma P2PRoundTrip(a: int64, b: int64)
    ensures P2PId(a, b) == P2PId(b, a)
    ensures ParseP2P(P2PId(a, b)) ==
            if a == b then None else Some(if a < b then (a, b) else (b, a))
  {
    ParsePrinted(a, b);
    ParsePrinted(b, a);
  }

  lemma GroupRoundTrip(gid: int64)
    ensures ParseGroup(GroupId(gid)) == if gid > 0 then Some(gid) else None
  {
    FormatIntHasNoColon(gid);
    SplitCons("g", FormatInt(gid));
    ParseFormat(gid);
  }

  /** Distinct unordered pairs have distinct ids. */
  lemma P2PIdInjective(a: int64, b: int64, c: int64, d: int64)
    requires a <= b && c <= d
    requires P2PId(a, b) == P2PId(c, d)
    ensures a == c && b == d
  {
    SplitP2P(a, b);
    SplitP2P(c, d);
    assert Split(P2PId(a, b)) == Split(P2PId(c, d));
    FormatIntInjective(a, c);
    FormatIntInjective(b, d);
  }

  lemma GroupIdInjective(a: int64, b: int64)
    requires GroupId(a) == GroupId(b)
    ensures a == b
  {
    assert GroupId(a)[2..] == FormatInt(a) && GroupId(b)[2..] == FormatInt(b);
    FormatIntInjective(a, b);
  }

  /** No string, canonical or not, is read both as a pair and as a group. */
  lemma KindsDisjoint(conv: string)
    ensures ParseP2P(conv).None? || ParseGroup(conv).None?
  {
  }

  /** The check passes exactly for printed ids of a pair holding the sender and a different peer,
      and then the peer it returns is that one. */
  lemma CheckP2PExact(sender: int64, conv: string, peer: int64)
    ensures CheckP2P(sender, conv) == Some(peer) <==> peer != sender && conv == P2PId(sender, peer)
  {
    if peer != sender && conv == P2PId(sender, peer) {
      P2PRoundTrip(sender, peer);
    }
  }

  lemma CheckGroupExact(conv: string, gid: int64)
    ensures CheckGroup(conv) == Some(gid) <==> gid > 0 && conv == GroupId(gid)
  {
    if gid > 0 && conv == GroupId(gid) {
      GroupRoundTrip(gid);
    }
  }

  /** The integer parser is looser than the printer: a plus sign and leading zeros are read but never
      printed. CheckP2PExact says that the recomputation refuses ids written that way. */
  lemma LooseIntegers()
    ensures ParseInt("+1") == Some(1) && ParseInt("01") == Some(1)
    ensures FormatInt(1) == "1"
  {
    assert "+1"[1..] == "1" && "1"[..0] == "" && "01"[..1] == "0" && "0"[..0] == "";
  }
}

/** Composite keys: pkg/redisx/keys.go, DeviceKey of internal/comet/conn.go, routeField of
    internal/comet/bucket.go and deviceOfField of internal/job/push.go. */
module Keys {
  import opened Common
  import opened Decimal

  function IdemKey(sender: int64, clientMsgId: string): string {
    "idem:" + (FormatInt(sender) + ":" + clientMsgId)
  }

  function DeviceKey(uid: int64, device: string): string { FormatInt(uid) + ":" + device }

  function RouteField(platform: int64, device: string): string { FormatInt(platform) + ":" + device }

  /** Client ids and device ids may hold colons; the number in front may not, so nothing is lost. */
  lemma IdemKeyInjective(s1: int64, c1: string, s2: int64, c2: string)
    requires IdemKey(s1, c1) == IdemKey(s2, c2)
    ensures s1 == s2 && c1 == c2
  {
    assert IdemKey(s1, c1)[5..] == FormatInt(s1) + ":" + c1;
    assert IdemKey(s2, c2)[5..] == FormatInt(s2) + ":" + c2;
    DeviceKeyInjective(s1, c1, s2, c2);
  }

  lemma DeviceKeyInjective(u1: int64, d1: string, u2: int64, d2: string)
    requires DeviceKey(u1, d1) == DeviceKey(u2, d2)
    ensures u1 == u2 && d1 == d2
  {
    FormatIntHasNoColon(u1);
    FormatIntHasNoColon(u2);
    ColonKeyInjective(FormatInt(u1), d1, FormatInt(u2), d2);
    FormatIntInjective(u1, u2);
  }

  /** The scan for the first colon; a field without one is returned whole. */
  method DeviceOfField(field: string) returns (device: string)
    ensures ':' in field ==> device == field[FirstColon(field) + 1..]
    ensures ':' !in field ==> device == field
  {
    var i := 0;
    while i < |field|
      invariant i <= |field| && ':' !in field[..i]
    {
      if field[i] == ':' {
        FirstColonOf(field[..i], field[i + 1..]);
        assert field == field[..i] + ":" + field[i + 1..];
        return field[i + 1..];
      }
      i := i + 1;
    }
    assert field[..i] == field;
    device := field;
  }

  /** job recovers the device that comet put into the route field, colons included. */
  method RouteFieldRoundTrip(platform: int64, device: string) returns (d: string)
    ensures d == device
  {
    FormatIntHasNoColon(platform);
    FirstColonOf(FormatInt(platform), device);
    d := DeviceOfField(RouteField(platform, device));
  }
}
