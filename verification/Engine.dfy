/** The engine object: its queues are filled between ticks and drained by Step. */
module Engine {
  import D = Director
  import I = Intents
  import SC = SignalControl
  import SE = SignalEngine
  import opened TickEngine

  class Engine<W> {
    const plan: Plan
    const physics: Physics<W>
    const director: D.DirectorQueue<W>
    const signals: SE.SignalController
    const intents: I.IntentQueue<W>
    var tick: nat
    var world: W
    var crcs: seq<nat>

    ghost predicate Valid()
      reads this, director, signals, intents
    {
      && plan.Valid()
      && director.site == plan.site && director.Valid(tick)
      && signals.net == plan.net && signals.Valid() && signals.tick == tick
    }

    ghost function View(): State<W>
      reads this, director, signals, intents
    {
      State(
        tick, world,
        director.dirQueue, director.dirNew, director.tally, director.spawnLog,
        signals.sigOv, signals.sigNew, signals.sigLog,
        intents.intentQ, intents.intentLog, crcs)
    }

    constructor (plan: Plan, physics: Physics<W>)
      requires plan.Valid()
      ensures Valid() && this.plan == plan && this.physics == physics
      ensures View() == TickEngine.Fresh(physics)
      ensures fresh(director) && fresh(signals) && fresh(intents)
    {
      this.plan, this.physics := plan, physics;
      director := new D.DirectorQueue<W>(plan.site);
      signals := new SE.SignalController(plan.net);
      intents := new I.IntentQueue<W>();
      tick, world, crcs := 0, physics.start, [];
    }

    method EnqueueIntent(k: I.KeyedIntent)
      requires Valid()
      modifies intents
      ensures Valid() && View() == Enqueue(plan, old(View()), Drive(k))
    {
      intents.EnqueueIntent(k);
    }

    method EnqueueSpawn(d: D.SpawnDirective) returns (v: D.Verdict)
      requires Valid()
      modifies director
      ensures Valid() && View() == Enqueue(plan, old(View()), Spawn(d))
      ensures v == D.Judge(plan.site, old(director.dirQueue), old(director.dirNew), d)
    {
      v := director.EnqueueSpawn(d, tick);
    }

    method EnqueueSignal(d: SE.Directive) returns (v: SE.Verdict)
      requires Valid()
      modifies signals
      ensures Valid() && View() == Enqueue(plan, old(View()), Signal(d))
      ensures v == SE.Judge(plan.net, old(signals.sigNew), old(signals.sigOv), d)
    {
      v := signals.EnqueueSignal(d);
    }

    /** The spawner, the director queue and the signal verbs. */
    method Events()
      requires Valid()
      modifies this`tick, this`world, director, signals
      ensures Valid() && SignalsInRange(plan.net, old(View()).sigNew)
      ensures View() == AfterEvents(plan, physics, old(View()))
      ensures tick == old(tick) + 1
    {
      hide D.QueueInv, SC.TableBounded, SC.StepTable, SC.ApplyAll, D.Drain, D.CountAll, D.Stamped;
      tick := tick + 1;
      world := physics.begin(world, signals.sigOv, tick);
      world := director.StepDirectorSpawns(physics.attempt, signals.sigOv, world, tick);
      signals.Step();
    }

    /** The intents, and the physics. */
    method Motion()
      requires Valid()
      modifies this`world, intents
      ensures Valid() && View() == AfterMotion(physics, old(View()))
    {
      hide D.QueueInv, SC.TableBounded, I.Arbitrate, I.ApplyWinners, D.CountAll;
      world := intents.ApplyIntents(physics.applyIntent, world, tick);
      world := physics.finish(world, signals.sigOv, tick);
    }

    /** One tick, in the fixed phase order. */
    method Step()
      requires Valid()
      modifies this, director, signals, intents
      ensures Valid() && SignalsInRange(plan.net, old(View()).sigNew)
      ensures View() == StepState(plan, physics, old(View()))
      ensures tick == old(tick) + 1
    {
      hide D.QueueInv, SC.TableBounded, D.CountAll, AfterEvents, AfterMotion;
      Events();
      Motion();
      var last := if crcs == [] then 0 else crcs[|crcs| - 1];
      crcs := crcs + [physics.crc(last, world, director.dirQueue, signals.sigOv, tick)];
    }
  }
}
