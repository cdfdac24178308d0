/** internal/session/handle_idle.go: sending responses in bulks while the client idles. */
module Idle {
  import opened Base
  import opened Responses
  import opened Merge
  import opened Snapshot
  import opened Responders

  /** What the sender's loop waits for: a response on the channel, or the ticker. */
  datatype IdleEvent = Arrive(response: Response) | Tick

  function Arrivals(es: seq<IdleEvent>): seq<Response> {
    if |es| == 0 then [] else
    Arrivals(es[..|es| - 1]) + match es[|es| - 1] case Arrive(r) => [r] case Tick => []
  }

  /** Every client for which rs is legal learns the same from both. */
  ghost predicate Tells(sent: seq<Response>, rs: seq<Response>) {
    forall c :: LegalStream(c, rs) ==> LegalStream(c, sent) && Watch(c, sent) == Watch(c, rs)
  }

  lemma {:induction false} TellsMore(sent: seq<Response>, rs: seq<Response>, bulk: seq<Response>)
    requires Tells(sent, rs) && MergeAll(bulk).Some?
    ensures Tells(sent + MergeAll(bulk).value, rs + bulk)
  {
    forall c | LegalStream(c, rs + bulk)
      ensures LegalStream(c, sent + MergeAll(bulk).value)
      ensures Watch(c, sent + MergeAll(bulk).value) == Watch(c, rs + bulk)
    {
      WatchConcat(c, rs, bulk);
      WatchConcat(c, sent, MergeAll(bulk).value);
      MergePreserves(Watch(c, rs), bulk);
    }
  }

  /** A piece of a stream whose merge does not panic merges without a panic. */
  lemma {:induction false} PieceMerges(rs: seq<Response>, i: nat, j: nat)
    requires i <= j <= |rs| && MergeAll(rs).Some?
    ensures MergeAll(rs[i..j]).Some?
  {
    MergePanicsIff(rs);
    MergePanicsIff(rs[i..j]);
    forall k | 0 <= k < j - i ensures !Regresses(rs[i..j][..k], rs[i..j][k]) {
      LastsOfPiece(rs, i, i + k);
      assert rs[i..j][..k] == rs[i..i + k];
      assert !Regresses(rs[..i + k], rs[i + k]);
    }
  }

  lemma {:induction false} LastsOfPiece(rs: seq<Response>, i: nat, j: nat)
    requires i <= j <= |rs|
    ensures LastExists(rs[i..j]).Some? ==> LastExists(rs[..j]) == LastExists(rs[i..j])
    ensures LastRecent(rs[i..j]).Some? ==> LastRecent(rs[..j]) == LastRecent(rs[i..j])
  {
    if i < j {
      assert rs[i..j][..j - i - 1] == rs[i..j - 1] && rs[..j][..j - 1] == rs[..j - 1];
      LastsOfPiece(rs, i, j - 1);
    }
  }

  /** sendResponsesInBulks, until the channel closes. None stands for a panic in Merge. */
  method SendInBulks(es: seq<IdleEvent>) returns (sent: Option<seq<Response>>)
    ensures sent.Some? ==> Tells(sent.value, Arrivals(es))
    ensures MergeAll(Arrivals(es)).Some? ==> sent.Some?
  {
    var buffer: seq<Response> := [];
    var out: seq<Response> := [];
    ghost var flushed: seq<Response> := [];
    ghost var all := Arrivals(es);
    for i := 0 to |es|
      invariant Arrivals(es[..i]) == flushed + buffer && flushed + buffer <= all
      invariant Tells(out, flushed)
    {
      assert es[..i + 1][..i] == es[..i];
      ArrivalsPrefix(es, i + 1);
      match es[i] {
        case Arrive(r) =>
          buffer := buffer + [r];
        case Tick =>
          var merged := MergeResponses(buffer);
          assert all[|flushed|..|flushed + buffer|] == buffer;
          if merged.None? {
            if MergeAll(all).Some? {
              PieceMerges(all, |flushed|, |flushed + buffer|);
            }
            return None;
          }
          TellsMore(out, flushed, buffer);
          out, flushed := out + merged.value, flushed + buffer;
          buffer := [];
      }
    }
    assert es[..|es|] == es;
    var merged := MergeResponses(buffer);
    assert all[|flushed|..|all|] == buffer;
    if merged.None? {
      if MergeAll(all).Some? {
        PieceMerges(all, |flushed|, |all|);
      }
      return None;
    }
    TellsMore(out, flushed, buffer);
    return Some(out + merged.value);
  }

  lemma {:induction false} ArrivalsPrefix(es: seq<IdleEvent>, i: nat)
    requires i <= |es|
    ensures Arrivals(es[..i]) <= Arrivals(es)
    decreases |es|
  {
    if i < |es| {
      assert es[..|es| - 1][..i] == es[..i];
      ArrivalsPrefix(es[..|es| - 1], i);
    } else {
      assert es[..i] == es;
    }
  }

  /** Outside CLOSE the bulks of what a session's responders produce never panic, wherever the ticker cuts. */
  lemma {:induction false} BulksNeverPanic(s: Snap, rs: seq<Responder>, sid: StateId, i: nat, j: nat)
    requires Valid(s) && i <= j <= |HandleAll(s, rs, sid, false).responses|
    ensures MergeAll(HandleAll(s, rs, sid, false).responses[i..j]).Some?
  {
    FlushNeverPanics(s, rs, sid);
    PieceMerges(HandleAll(s, rs, sid, false).responses, i, j);
  }
}
