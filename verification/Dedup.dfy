/** The client's dedup window (scripts/wsclient.go): a ring of the last accepted ids and a set of those
    it currently remembers. */
module Dedup {
  import opened Common

  /** The ids accepted so far, seen through a window of this many places; places not yet used are empty. */
  function Window(accepted: seq<string>, cap: nat): (w: seq<string>)
    ensures |w| == cap
  {
    (Blank(cap) + accepted)[|accepted|..]
  }

  function Blank(n: nat): seq<string> { seq(n, _ => "") }

  /** What the set must hold: the ids in the window; and the empty id, once accepted, for ever. */
  ghost predicate Remembered(accepted: seq<string>, cap: nat, id: string) {
    if id == "" then "" in accepted else id in Window(accepted, cap)
  }

  /** A non-empty id is remembered exactly while it is one of the last cap accepted ids. */
  lemma RememberedExactly(accepted: seq<string>, cap: nat, id: string)
    requires id != ""
    ensures Remembered(accepted, cap, id) <==>
            exists t :: 0 <= t < |accepted| && |accepted| - cap <= t && accepted[t] == id
  {
    var w := Window(accepted, cap);
    forall k | 0 <= k < cap
      ensures w[k] == if |accepted| + k < cap then "" else accepted[|accepted| + k - cap]
    {
    }
    if exists t :: 0 <= t < |accepted| && |accepted| - cap <= t && accepted[t] == id {
      var t :| 0 <= t < |accepted| && |accepted| - cap <= t && accepted[t] == id;
      assert w[t + cap - |accepted|] == id;
    }
    if id in w {
      var k :| 0 <= k < cap && w[k] == id;
      assert accepted[|accepted| + k - cap] == id;
    }
  }

  lemma WindowSlides(accepted: seq<string>, cap: nat, id: string)
    requires cap > 0
    ensures Window(accepted + [id], cap) == Window(accepted, cap)[1..] + [id]
  {
    assert Blank(cap) + (accepted + [id]) == Blank(cap) + accepted + [id];
  }

  ghost predicate NoRepeats(w: seq<string>) {
    forall i, j :: 0 <= i < j < |w| && w[i] != "" ==> w[i] != w[j]
  }

  function NonEmptyOf(w: seq<string>): set<string> { set x | x in w && x != "" }

  lemma {:induction false} NonEmptySize(w: seq<string>)
    ensures |NonEmptyOf(w)| <= |w|
  {
    if w != [] {
      NonEmptySize(w[1..]);
      assert NonEmptyOf(w) == NonEmptyOf(w[1..]) + if w[0] == "" then {} else {w[0]};
    }
  }

  class Lru {
    const cap: nat
    var seen: set<string>
    const ring: array<string>
    var idx: nat
    ghost var accepted: seq<string>

    /** The ring read from its oldest place. */
    ghost function Oldest(): seq<string>
      reads this, ring
      requires idx <= ring.Length
    {
      ring[idx..] + ring[..idx]
    }

    ghost predicate Valid()
      reads this, ring
    {
      && cap > 0 && ring.Length == cap && idx < cap
      && Oldest() == Window(accepted, cap) && NoRepeats(Oldest())
      && (forall id :: id in seen <==> Remembered(accepted, cap, id))
    }

    constructor (cap: nat)
      requires cap > 0
      ensures Valid() && this.cap == cap && accepted == [] && fresh(ring)
    {
      this.cap, seen, idx, accepted := cap, {}, 0, [];
      ring := new string[cap](_ => "");
      new;
      assert ring[..] == Blank(cap);
    }

    /** The ring's oldest place is overwritten. */
    method Overwrite(id: string) returns (oldest: string)
      requires cap > 0 && ring.Length == cap && idx < cap
      modifies ring, `idx
      ensures idx < cap && oldest == old(Oldest())[0] && Oldest() == old(Oldest())[1..] + [id]
    {
      ghost var places := ring[..];
      oldest := ring[idx];
      ring[idx] := id;
      Replace(places, idx, id);
      idx := (idx + 1) % cap;
      assert ring[..] == places[old(idx) := id];
      assert ring[idx..] + ring[..idx] == ring[..][idx..] + ring[..][..idx];
      assert old(Oldest()) == places[old(idx)..] + places[..old(idx)];
    }

    /** add: refused exactly while remembered. */
    method Add(id: string) returns (ok: bool)
      requires Valid()
      modifies this, ring
      ensures Valid()
      ensures ok <==> !Remembered(old(accepted), cap, id)
      ensures accepted == old(accepted) + if ok then [id] else []
      ensures !ok ==> seen == old(seen) && ring[..] == old(ring[..]) && idx == old(idx)
    {
      if id in seen {
        return false;
      }
      ghost var was := Oldest();
      hide Window;
      hide NoRepeats;
      hide Remembered;
      hide Oldest;
      var oldest := Overwrite(id);
      if oldest != "" {
        seen := seen - {oldest};
      }
      seen := seen + {id};
      accepted := accepted + [id];
      Slide(old(accepted), cap, id, was, old(seen), seen);
      ok := true;
    }
  }

  /** Overwriting the oldest place and moving on, seen from the oldest place. */
  lemma Replace(ring: seq<string>, idx: nat, id: string)
    requires idx < |ring|
    ensures var ring', next := ring[idx := id], (idx + 1) % |ring|;
            ring'[next..] + ring'[..next] == (ring[idx..] + ring[..idx])[1..] + [id]
  {
    if idx + 1 < |ring| {
      assert (idx + 1) % |ring| == idx + 1;
    } else {
      assert (idx + 1) % |ring| == 0;
    }
  }

  /** One accepted id: the oldest leaves the window, and the set follows. */
  lemma Slide(accepted: seq<string>, cap: nat, id: string, was: seq<string>, before: set<string>, after: set<string>)
    requires cap > 0 && was == Window(accepted, cap) && NoRepeats(was) && id !in before
    requires forall x :: x in before <==> Remembered(accepted, cap, x)
    requires after == before - (if was[0] == "" then {} else {was[0]}) + {id}
    ensures was[1..] + [id] == Window(accepted + [id], cap) && NoRepeats(was[1..] + [id])
    ensures forall x :: x in after <==> Remembered(accepted + [id], cap, x)
  {
    WindowSlides(accepted, cap, id);
    hide Window;
    var w := was[1..] + [id];
    assert was == [was[0]] + was[1..];
    assert was[0] != "" ==> was[0] !in was[1..];
    assert forall x :: x in w <==> x in was[1..] || x == id;
    assert id == "" || id !in was;
  }

  /** The set, without the empty id, is the window's non-empty contents and never larger than the window. */
  lemma SeenIsWindow(l: Lru)
    requires l.Valid()
    ensures l.seen - {""} == NonEmptyOf(Window(l.accepted, l.cap)) && |l.seen - {""}| <= l.cap
  {
    NonEmptySize(Window(l.accepted, l.cap));
  }

  /** The empty id is the exception: once accepted it is refused for ever, however far it has moved out
      of the window. */
  lemma EmptyIdSticks(accepted: seq<string>, more: seq<string>, cap: nat)
    requires "" in accepted
    ensures Remembered(accepted + more, cap, "")
  {
  }
}
