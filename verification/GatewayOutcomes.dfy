/** What the gateway does for a subscriber: who is let in, who stays, and that one who keeps up is sent everything. */
module GatewayOutcomes {
  import opened Wrappers
  import opened GatewayRules

  /** An event of at most 80 KiB gets the next identifier and is written to every open subscription, and only those that
      cannot keep up are dropped; a larger one is not numbered, reaches nobody and drops everybody. */
  lemma PublishIsExact(g: Gateway, event: string, bytes: nat, slow: set<nat>)
    requires BufferInv(g)
    ensures var (after, numbered) := (Publish(g, event, bytes, slow), ReplayEvent(bytes, event, g.nextEventId));
            && (bytes <= 81920 ==>
                  && after.accepted == g.accepted + [numbered] && numbered.id == |g.accepted| + 1
                  && after.subscribers == g.subscribers - slow
                  && forall r :: SentTo(after.sent, r)
                                 == if r in g.subscribers then SentTo(g.sent, r) + [EventFrame(numbered)]
                                    else SentTo(g.sent, r))
            && (bytes > 81920 ==> after.subscribers == {} && after.accepted == g.accepted && after.sent == g.sent)
            && after.since == g.since
  {
  }

  /** A subscription is let in exactly while fewer than four are open; it is then open beside the others, and has been
      sent a reset, or the events after its cursor. */
  lemma SubscribeIsExact(g: Gateway, r: nat, cursor: Option<nat>)
    requires BufferInv(g)
    ensures Subscribe(g, r, cursor).Some? <==> |g.subscribers| < 4
    ensures Subscribe(g, r, cursor).Some? ==>
              var after := Subscribe(g, r, cursor).value;
              && after.subscribers == g.subscribers + {r} && after.accepted == g.accepted
              && SentTo(after.sent, r) == Opening(g, cursor)
              && forall other | other != r :: SentTo(after.sent, other) == SentTo(g.sent, other)
    ensures cursor.None? ==> Opening(g, cursor) == [ResetFrame(|g.accepted|)]
  {
  }

  /** Nothing in the run would drop the subscriber: no event is too large, it is never slow, and it stays connected. */
  predicate KeepsUp(steps: seq<Step>, r: nat) {
    forall i | 0 <= i < |steps| ::
      match steps[i]
      case DoPublish(_, bytes, slow) => bytes <= 81920 && r !in slow
      case DoSubscribe(_, _) => true
      case DoDrop(gone) => gone != r
  }

  /** The events that a run publishes. */
  function Published(steps: seq<Step>): nat {
    if steps == [] then 0 else (if steps[0].DoPublish? then 1 else 0) + Published(steps[1..])
  }

  lemma NextKeepsSubscriber(g: Gateway, step: Step, r: nat)
    requires BufferInv(g) && StreamInv(g) && r in g.subscribers && KeepsUp([step], r)
    ensures var after := Next(g, step);
            && r in after.subscribers && (r in g.since ==> r in after.since && after.since[r] == g.since[r])
            && |after.accepted| == |g.accepted| + (if step.DoPublish? then 1 else 0)
  {
    assert [step][0] == step;
    assert r in g.sent;
  }

  /** A subscriber that keeps up stays subscribed, and everything published meanwhile is accepted. */
  lemma {:induction false} KeepingUpIsEnough(g: Gateway, steps: seq<Step>, r: nat)
    requires BufferInv(g) && StreamInv(g) && r in g.subscribers && KeepsUp(steps, r)
    ensures var after := Run(g, steps);
            && r in after.subscribers && (r in g.since ==> r in after.since && after.since[r] == g.since[r])
            && |after.accepted| == |g.accepted| + Published(steps)
    decreases |steps|
  {
    if steps != [] {
      assert KeepsUp([steps[0]], r);
      NextKeepsSubscriber(g, steps[0], r);
      NextKeepsBuffer(g, steps[0]);
      NextKeepsStream(g, steps[0]);
      forall i | 0 <= i < |steps[1..]| ensures steps[1..][i] == steps[i + 1] {
      }
      KeepingUpIsEnough(Next(g, steps[0]), steps[1..], r);
    }
  }

  lemma SubscriptionBegins(g: Gateway, r: nat, cursor: Option<nat>)
    requires BufferInv(g) && r !in g.sent && |g.subscribers| < 4 && RegularCursor(g, cursor)
    ensures var after := Next(g, DoSubscribe(r, cursor));
            && r in after.subscribers && r in after.since && after.accepted == g.accepted
            && after.since[r] == if NeedsReset(g, cursor) then |g.accepted| else cursor.value
  {
  }

  lemma SubscriberIsSentAll(g: Gateway, r: nat, steps: seq<Step>)
    requires BufferInv(g) && StreamInv(g) && r in g.subscribers && r in g.since && KeepsUp(steps, r)
    ensures var after := Run(g, steps);
            && r in after.subscribers && |after.accepted| == |g.accepted| + Published(steps)
            && GapFree(SentTo(after.sent, r), after.accepted, g.since[r])
  {
    KeepingUpIsEnough(g, steps, r);
    RunKeepsStream(g, steps);
  }

  /** So a regular subscriber that keeps up is sent every event that is published, once and in order, after what it was
      sent when it subscribed. */
  lemma NothingIsMissed(before: seq<Step>, r: nat, cursor: Option<nat>, steps: seq<Step>)
    requires var g := Run(INITIAL_GATEWAY, before);
             && r !in g.sent && |g.subscribers| < 4 && RegularCursor(g, cursor) && KeepsUp(steps, r)
    ensures var g := Run(INITIAL_GATEWAY, before);
            var after := Run(Next(g, DoSubscribe(r, cursor)), steps);
            var since := if NeedsReset(g, cursor) then |g.accepted| else cursor.value;
            && r in after.subscribers && |after.accepted| == |g.accepted| + Published(steps)
            && GapFree(SentTo(after.sent, r), after.accepted, since)
  {
    var g := Run(INITIAL_GATEWAY, before);
    InitialGatewayInv();
    RunKeepsStream(INITIAL_GATEWAY, before);
    NextKeepsBuffer(g, DoSubscribe(r, cursor));
    NextKeepsStream(g, DoSubscribe(r, cursor));
    SubscriptionBegins(g, r, cursor);
    SubscriberIsSentAll(Next(g, DoSubscribe(r, cursor)), r, steps);
  }
}
