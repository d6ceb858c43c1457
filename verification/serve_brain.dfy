/**
 * The per-brain worker of the brain server: one message at a time, over the
 * brain and the time of the last save. Time is whole seconds; `save` is an
 * abstract action whose outcome is a parameter (`None` for success, or the
 * error it failed with).
 */
module ServeBrain {
  import opened Wrappers
  import opened MarkovLink
  import opened MarkovChain
  import opened MarkovBrain
  import opened Random

  /** `SAVE_DURATION`: five minutes, in seconds. */
  const SaveDuration: nat := 5 * 60

  datatype Request =
    | Train(data: seq<Byte>)
    | Generate(min: nat, max: nat, query: Option<seq<Byte>>)
    | Save
    | ForceSave

  datatype Response =
    | Generated(data: seq<Byte>)
    | Error(error: string)
    | Nothing

  /** One message as the worker receives it, with the clock reading and the outcome of a save. */
  datatype Incoming = Incoming(msg: Request, now: nat, saveError: Option<string>)

  /** `Instant::elapsed`: never negative. */
  function Elapsed(last: nat, now: nat): nat {
    if now >= last then now - last else 0
  }

  /** Whether a message makes the worker save. */
  predicate Saves(msg: Request, last: nat, now: nat) {
    msg.ForceSave? || (msg.Save? && Elapsed(last, now) >= SaveDuration)
  }

  /** The chain after the training messages of `inbox`, in order. */
  function TrainedBy(c: Chain, inbox: seq<Incoming>, depth: nat): Chain {
    if inbox == [] then c
    else
      var before := TrainedBy(c, inbox[..|inbox| - 1], depth);
      match inbox[|inbox| - 1].msg
      case Train(data) => TrainChain(before, data, depth)
      case _ => before
  }

  /** The starting words after the training messages of `inbox`, in order. */
  function HeadBy(head: set<Word>, inbox: seq<Incoming>): set<Word> {
    if inbox == [] then head
    else
      var before := HeadBy(head, inbox[..|inbox| - 1]);
      match inbox[|inbox| - 1].msg
      case Train(data) => TrainHead(before, data)
      case _ => before
  }

  /** One more message: a training message trains, any other leaves the brain alone. */
  lemma TrainedByStep(c: Chain, head: set<Word>, inbox: seq<Incoming>, i: nat, depth: nat)
    requires i < |inbox|
    ensures TrainedBy(c, inbox[..i + 1], depth) == if inbox[i].msg.Train?
      then TrainChain(TrainedBy(c, inbox[..i], depth), inbox[i].msg.data, depth)
      else TrainedBy(c, inbox[..i], depth)
    ensures HeadBy(head, inbox[..i + 1]) == if inbox[i].msg.Train?
      then TrainHead(HeadBy(head, inbox[..i]), inbox[i].msg.data)
      else HeadBy(head, inbox[..i])
  {
    assert inbox[..i + 1][..i] == inbox[..i];
  }

  /** Messages other than training leave the brain as it was. */
  lemma {:induction false} OnlyTrainingChanges(c: Chain, head: set<Word>, inbox: seq<Incoming>, depth: nat)
    requires forall m <- inbox :: !m.msg.Train?
    ensures TrainedBy(c, inbox, depth) == c && HeadBy(head, inbox) == head
  {
    if inbox != [] {
      assert forall m <- inbox[..|inbox| - 1] :: m in inbox;
      OnlyTrainingChanges(c, head, inbox[..|inbox| - 1], depth);
      assert inbox[|inbox| - 1] in inbox;
    }
  }

  /**
   * The reply to a generate message from a brain with starting words `head`
   * and chain `c`: the rendered text of a line that reaches the lower bound
   * or the limit, starts with a starting word, holds every query word and
   * holds only words the brain may produce; or the error, which is the only
   * answer when there are no starting words and at least one word is asked
   * for.
   */
  predicate Answer(msg: Request, reply: Response, words: seq<Word>, head: set<Word>, c: Chain)
    requires msg.Generate?
  {
    && (reply == Generated(Rendered(words, msg.max)) || reply == Error("cannot generate data"))
    && (reply.Generated? ==> |words| >= msg.min || |words| >= msg.max)
    && (reply.Generated? && words != [] ==> words[0] in head)
    && (reply.Generated? ==> multiset(BaseWords(msg.query)) <= multiset(words))
    && (forall w <- words :: KnownTo(head, c, w, msg.query))
    && (msg.min >= 1 && head == {} ==> reply == Error("cannot generate data"))
  }

  /** The worker thread's state: the brain it owns and the time of the last successful save. */
  class Worker {
    var brain: Brain
    var last: nat
    /** Generation work allowed per message, in place of `GENERATE_TIMEOUT`. */
    const fuel: nat

    ghost predicate Valid()
      reads this, brain
    {
      brain.Valid()
    }

    constructor (brain: Brain, now: nat, fuel: nat)
      requires brain.Valid()
      ensures Valid() && this.brain == brain && last == now && this.fuel == fuel
    {
      this.brain := brain;
      last := now;
      this.fuel := fuel;
    }

    /**
     * `handle_message`: `r` is `Ok(true)` when a reply was already sent
     * (`sent`), `Ok(false)` when the caller should reply `Nothing`, and the
     * error otherwise. For a generate message, `words` is the line the brain
     * generated, and the reply carries its rendered text.
     */
    method HandleMessage(msg: Request, now: nat, saveError: Option<string>, rng: Rng)
      returns (r: Result<bool>, sent: Option<Response>, ghost words: seq<Word>)
      requires Valid()
      modifies this, brain, rng
      ensures Valid() && brain == old(brain)
      ensures sent.Some? <==> r == Ok(true)
      ensures msg.Train? ==> r == Ok(false)
      ensures msg.Train? ==> brain.chain == TrainChain(old(brain.chain), msg.data, brain.depth)
      ensures msg.Train? ==> brain.head == TrainHead(old(brain.head), msg.data)
      ensures !msg.Train? ==> brain.chain == old(brain.chain) && brain.head == old(brain.head)
      ensures msg.Generate? ==> r == Ok(true) || r == Err("cannot generate data")
      ensures msg.Generate? && r == Ok(true) ==> sent == Some(Generated(Rendered(words, msg.max)))
      ensures msg.Generate? && r == Ok(true) ==> |words| >= msg.min || |words| >= msg.max
      ensures msg.Generate? && r == Ok(true) && words != [] ==> words[0] in brain.head
      ensures msg.Generate? && r == Ok(true) ==> multiset(BaseWords(msg.query)) <= multiset(words)
      ensures msg.Generate? ==> forall w <- words :: brain.Known(w, msg.query)
      ensures msg.Generate? && msg.min >= 1 && brain.head == {} ==> r == Err("cannot generate data")
      ensures Saves(msg, old(last), now) && saveError.None? ==> r == Ok(false) && last == now
      ensures Saves(msg, old(last), now) && saveError.Some? ==> r == Err(saveError.value) && last == old(last)
      ensures !Saves(msg, old(last), now) ==> last == old(last)
      ensures msg.Save? && !Saves(msg, old(last), now) ==> r == Ok(false)
    {
      sent := None;
      words := [];
      match msg {
        case Train(data) =>
          brain.Train(data);
          r := Ok(false);
        case Generate(min, max, query) =>
          var text;
          text, words := brain.Generate(rng, min, max, query, fuel);
          if text.None? {
            return Err("cannot generate data"), None, words;
          }
          sent := Some(Generated(text.value));
          r := Ok(true);
        case ForceSave =>
          if saveError.Some? {
            return Err(saveError.value), None, words;
          }
          last := now;
          r := Ok(false);
        case Save =>
          if Elapsed(last, now) >= SaveDuration {
            if saveError.Some? {
              return Err(saveError.value), None, words;
            }
            last := now;
          }
          r := Ok(false);
      }
    }

    /**
     * One turn of the worker loop: handle the message and work out its one
     * reply. For a generate message, `words` is the generated line.
     */
    method Step(m: Incoming, rng: Rng) returns (reply: Response, ghost words: seq<Word>)
      requires Valid()
      modifies this, brain, rng
      ensures Valid() && brain == old(brain)
      ensures reply.Generated? ==> m.msg.Generate?
      ensures m.msg.Train? ==> reply == Nothing
      ensures m.msg.Generate? ==> Answer(m.msg, reply, words, brain.head, brain.chain)
      ensures Saves(m.msg, old(last), m.now) ==>
        reply == (if m.saveError.Some? then Error(m.saveError.value) else Nothing)
      ensures m.msg.Save? && !Saves(m.msg, old(last), m.now) ==> reply == Nothing
      ensures brain.chain == if m.msg.Train? then TrainChain(old(brain.chain), m.msg.data, brain.depth) else old(brain.chain)
      ensures brain.head == if m.msg.Train? then TrainHead(old(brain.head), m.msg.data) else old(brain.head)
    {
      var r, sent;
      r, sent, words := HandleMessage(m.msg, m.now, m.saveError, rng);
      match r {
        case Ok(true) => reply := sent.value;
        case Ok(false) => reply := Nothing;
        case Err(e) => reply := Error(e);
      }
    }

    /** A turn of the worker loop, with only what the loop keeps track of: the kind of reply and the brain. */
    method Turn(m: Incoming, rng: Rng) returns (reply: Response)
      requires Valid()
      modifies this, brain, rng
      ensures Valid() && brain == old(brain)
      ensures reply.Generated? ==> m.msg.Generate?
      ensures m.msg.Train? ==> reply == Nothing
      ensures brain.chain == if m.msg.Train? then TrainChain(old(brain.chain), m.msg.data, brain.depth) else old(brain.chain)
      ensures brain.head == if m.msg.Train? then TrainHead(old(brain.head), m.msg.data) else old(brain.head)
    {
      var r, _ := Step(m, rng);
      reply := r;
    }

    /** The worker loop of `spawn_brain`: every message gets exactly one reply. */
    method Run(inbox: seq<Incoming>, rng: Rng) returns (replies: seq<Response>)
      requires Valid()
      modifies this, brain, rng
      ensures Valid() && brain == old(brain)
      ensures |replies| == |inbox|
      ensures forall i :: 0 <= i < |inbox| ==> (replies[i].Generated? ==> inbox[i].msg.Generate?)
      ensures forall i :: 0 <= i < |inbox| && inbox[i].msg.Train? ==> replies[i] == Nothing
      ensures brain.chain == TrainedBy(old(brain.chain), inbox, brain.depth)
      ensures brain.head == HeadBy(old(brain.head), inbox)
    {
      replies := [];
      ghost var chain0, head0 := brain.chain, brain.head;
      for i := 0 to |inbox|
        invariant Valid() && brain == old(brain)
        invariant |replies| == i
        invariant forall j :: 0 <= j < i ==> (replies[j].Generated? ==> inbox[j].msg.Generate?)
        invariant forall j :: 0 <= j < i && inbox[j].msg.Train? ==> replies[j] == Nothing
        invariant brain.chain == TrainedBy(chain0, inbox[..i], brain.depth)
        invariant brain.head == HeadBy(head0, inbox[..i])
      {
        var reply := Turn(inbox[i], rng);
        TrainedByStep(chain0, head0, inbox, i, brain.depth);
        replies := replies + [reply];
      }
      assert inbox[..|inbox|] == inbox;
    }
  }
}
