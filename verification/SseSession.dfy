// The closure of openLiveProjectStream on a real connection: each of its methods is
// a step of the delivery system, so what it hands to `onMessage` is an interval of
// the server log.
module SseSession {
  import opened Basics
  import opened SseParser
  import opened SseText
  import D = SseDelivery
  import L = SseLoop

  // The delivered messages are the interval of the log that ends at the cursor.
  ghost predicate Delivering(w: D.World, since: Option<int>) {
    exists base, end :: D.Inv(SSE, w, since, base, end)
  }

  lemma DeliveringGoesOn(w: D.World, since: Option<int>, s: D.Step)
    requires Delivering(w, since) && D.Enabled(SSE, w, s)
    ensures Delivering(D.Next(SSE, w, s), since)
  {
    hide D.Inv, D.Next, D.Enabled;
    var base, end :| D.Inv(SSE, w, since, base, end);
    SseIsLawful();
    var base', end' := D.StepKeepsInv(SSE, w, since, base, end, s);
  }

  class Session {
    const stream: L.LiveStream
    ghost const since: Option<int>
    ghost var world: D.World

    // The variables of the closure are those of the system.
    ghost predicate Valid()
      reads this, stream, stream.parser
    {
      && L.Inv(stream.config, stream.View())
      && Delivering(world, since)
      && stream.lastSeq == world.cursor && stream.delivered == world.delivered
      && (stream.phase.Connected? <==> world.connection.Some?)
      && (stream.phase.Connected? ==>
            stream.parser.lastSeq == stream.lastSeq && stream.parser.buffer == world.connection.value.buffer)
    }

    constructor (config: L.Config, ghost log: seq<Message>, since: Option<int>)
      requires D.ValidLog(SSE, log)
      ensures Valid() && fresh(stream) && fresh(stream.parser)
      ensures world == D.Initial(log, since) && this.since == since && stream.config == config
    {
      stream := new L.LiveStream(config, since);
      this.since := since;
      world := D.Initial(log, since);
      ghost var base := D.StartInv(SSE, log, since);
    }

    // The server publishes, writes an event or a keep-alive.
    ghost method Serve(s: D.Step)
      requires Valid() && D.Enabled(SSE, world, s) && (s.Publish? || s.WriteEvent? || s.WriteKeepAlive?)
      modifies this`world
      ensures Valid() && world == D.Next(SSE, old(world), s)
    {
      DeliveringGoesOn(world, since, s);
      world := D.Next(SSE, world, s);
    }

    method Begin()
      requires Valid() && stream.phase.Ready?
      modifies this`world, stream, stream.parser
      ensures Valid() && (stream.phase.Connected? <==> !old(stream.stopped))
      ensures stream.View() == L.Step(stream.config, old(stream.View()), L.Event.Begin)
      ensures world == if stream.phase.Connected? then D.Next(SSE, old(world), D.Connect) else old(world)
    {
      hide Delivering, L.Inv;
      stream.Begin();
      if stream.phase.Connected? {
        DeliveringGoesOn(world, since, D.Connect);
        world := D.Next(SSE, world, D.Connect);
      }
    }

    // A chunk of the body arrives.
    method Receive(chunk: string)
      requires Valid() && D.Enabled(SSE, world, D.Read(chunk))
      modifies this`world, stream, stream.parser
      ensures Valid() && world == D.Next(SSE, old(world), D.Read(chunk)) && stream.View() == old(stream.View())
    {
      hide Delivering, L.Inv;
      DeliveringGoesOn(world, since, D.Read(chunk));
      stream.Receive(chunk);
      world := D.Next(SSE, world, D.Read(chunk));
    }

    // The body ends, or the connection fails: the decoder is flushed and the
    // connection judged.
    method End(flush: string, ending: L.Ending, closing: bool, jitter: real)
      requires Valid() && D.Enabled(SSE, world, D.Cut(flush))
      requires 0.8 <= jitter <= 1.2 && stream.config.delay(L.Counted(stream.attempt, ending)) >= 0.0
      modifies this`world, stream, stream.parser
      ensures Valid() && world == D.Next(SSE, old(world), D.Cut(flush))
      ensures var delay := stream.config.delay(L.Counted(old(stream.attempt), ending));
              var e := L.Event.End(ending, closing, L.Jittered(delay, jitter));
              && L.Enabled(stream.config, old(stream.View()), e)
              && stream.View() == L.Step(stream.config, old(stream.View()), e)
    {
      hide Delivering, L.Inv;
      DeliveringGoesOn(world, since, D.Cut(flush));
      stream.Receive(flush);
      stream.End(ending, closing, jitter);
      world := D.Next(SSE, world, D.Cut(flush));
    }

    method Open()
      requires Valid() && stream.phase.Connected?
      modifies stream
      ensures Valid() && world == old(world)
      ensures stream.View() == L.Step(stream.config, old(stream.View()), L.Event.Open)
    {
      hide Delivering, L.Inv;
      stream.Opened();
    }

    method Elapse()
      requires Valid() && stream.phase.Backoff?
      modifies stream
      ensures Valid() && world == old(world)
      ensures stream.View() == L.Step(stream.config, old(stream.View()), L.Event.Elapse)
    {
      hide Delivering, L.Inv;
      stream.Elapse();
    }

    method Close()
      requires Valid()
      modifies stream
      ensures Valid() && world == old(world) && stream.stopped
      ensures stream.View() == L.Step(stream.config, old(stream.View()), L.Event.Close)
    {
      hide Delivering, L.Inv;
      stream.Close(stream.attempt);
    }
  }

  // Whatever methods were called, in whatever order: what the closure has handed
  // on is an interval of the log, complete once it has caught up.
  lemma DeliveredIsAnInterval(s: Session)
    requires s.Valid()
    ensures exists base: nat, end: nat :: D.Outcome(s.world, s.since, base, end) && s.stream.delivered == s.world.log[base..end]
  {
    var base, end :| D.Inv(SSE, s.world, s.since, base, end);
    D.InvMeansOutcome(SSE, s.world, s.since, base, end);
  }
}
