/** Vocabulary shared by every component: machine integers, optional values,
    and the three ways a remote command can end. */
module Common {

  const INT64_MIN := -0x8000_0000_0000_0000
  const INT64_MAX := 0x7fff_ffff_ffff_ffff
  const UINT64_MAX := 0xffff_ffff_ffff_ffff

  type int64 = x: int | INT64_MIN <= x <= INT64_MAX
  type byte = x: int | 0 <= x < 256

  datatype Option<+T> = None | Some(value: T)

  /** How a Redis, Kafka or MySQL command ends for its caller. An error leaves open
      whether the command ran, so both possibilities are kept apart. */
  datatype Outcome =
    | Success
    | FailedBefore // error returned, nothing happened
    | FailedAfter  // the command took effect but its reply was lost
  {
    predicate Applied() { !FailedBefore? }
  }

  // ---------------------------------------------------------------- what a filtering loop keeps

  /** out holds the elements of src at the positions at, which ascend and are exactly the kept ones: nothing
      is lost, doubled or moved. */
  ghost predicate Selects<T>(src: seq<T>, keep: nat -> bool, at: seq<nat>, out: seq<T>) {
    && |at| == |out|
    && (forall i, j :: 0 <= i < j < |at| ==> at[i] < at[j])
    && (forall k: nat :: k in at <==> k < |src| && keep(k))
    && forall i :: 0 <= i < |at| && at[i] < |src| ==> out[i] == src[at[i]]
  }

  lemma SelectsSnoc<T>(src: seq<T>, x: T, keep: nat -> bool, at: seq<nat>, out: seq<T>) returns (at': seq<nat>)
    requires Selects(src, keep, at, out)
    ensures Selects(src + [x], keep, at', out + if keep(|src|) then [x] else [])
  {
    at' := at + if keep(|src|) then [|src|] else [];
    forall i | 0 <= i < |at|
      ensures at[i] < |src|
    {
      assert at[i] in at;
    }
    forall k: nat | true
      ensures k in at' <==> k < |src| + 1 && keep(k)
    {
      assert k in at' <==> k in at || (keep(|src|) && k == |src|);
    }
  }

  /** Only the kept positions matter. */
  lemma SelectsSame<T>(src: seq<T>, keep: nat -> bool, keep': nat -> bool, at: seq<nat>, out: seq<T>)
    requires Selects(src, keep, at, out) && forall k: nat :: k < |src| ==> keep(k) == keep'(k)
    ensures Selects(src, keep', at, out)
  {
  }
}
