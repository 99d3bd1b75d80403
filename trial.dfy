/**
 * Ordered trial decoding: try decoders one after another on the same bytes
 * and stop at the first that succeeds. Shared by the three-decoder chain of
 * cmd/root.go and cmd/diff.go and the two-decoder chain of pkg/pkg.go.
 */
module Trial {

  import opened Wrappers
  import opened Values

  /**
   * The position in `order` of the first decoder that accepts `contents`,
   * or `|order|` when none does.
   */
  function FirstSuccess<L>(order: seq<L>, contents: Bytes, decode: Decoder<L>): (i: nat)
    ensures i <= |order|
    ensures forall j :: 0 <= j < i ==> decode(order[j], contents).None?
    ensures i < |order| ==> decode(order[i], contents).Some?
    decreases |order|
  {
    if order == [] then 0
    else if decode(order[0], contents).Some? then 0
    else 1 + FirstSuccess(order[1..], contents, decode)
  }

  /** The decoders a trial calls, in order: every one up to and including the first that succeeds. */
  function TrialCalls<L>(order: seq<L>, contents: Bytes, decode: Decoder<L>): seq<L>
  {
    var i := FirstSuccess(order, contents, decode);
    if i < |order| then order[..i + 1] else order
  }

  /** The value and the decoder of a trial's first success, or None when every decoder fails. */
  function TrialResult<L>(order: seq<L>, contents: Bytes, decode: Decoder<L>): Option<(Value, L)>
  {
    var i := FirstSuccess(order, contents, decode);
    if i < |order| then Some((decode(order[i], contents).value, order[i])) else None
  }

  /**
   * A trial succeeds exactly when some decoder does; it then returns the
   * value of the earliest one, and every decoder it called before that one
   * failed.
   */
  lemma TrialFirstSuccessWins<L>(order: seq<L>, contents: Bytes, decode: Decoder<L>)
    ensures TrialResult(order, contents, decode).Some? <==>
            exists j :: 0 <= j < |order| && decode(order[j], contents).Some?
    ensures forall j :: 0 <= j < |order| && decode(order[j], contents).Some? ==>
              var r := TrialResult(order, contents, decode).value;
              exists i :: 0 <= i <= j && decode(order[i], contents) == Some(r.0) && order[i] == r.1
    ensures var calls := TrialCalls(order, contents, decode);
            && calls <= order
            && (forall k :: 0 <= k < |calls| - 1 ==> decode(calls[k], contents).None?)
            && (TrialResult(order, contents, decode).None? <==> calls == order && forall k :: 0 <= k < |order| ==> decode(order[k], contents).None?)
  {
  }
}
