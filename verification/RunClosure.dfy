/** Where the address of a dispatch comes from when an emitted body runs: a constant in
    its text, which the generated switch knows if there is code there, or a register,
    memory, the vector table or a reset. */
module RunClosure {
  import opened Machine
  import opened Isa
  import opened Emitter
  import opened BodyLayout
  import opened OneDispatch
  import D = Discovery
  import C = DispatchClosure
  import Alu

  // ---------------------------------------------------------------- one statement

  predicate IsConstant(to: Target) { to.To? && to.e.Constant? }

  /** The dispatch to a that statement s records from e is not one to a constant: it
      reads a register, memory or a C local, takes an exception, trace or interrupt
      through its vector, or follows a reset. */
  predicate Computed(world: World, s: Stmt, e: Env, a: u24) {
    var m1 := Exec(world, s, e).e.w.m;
    match s
    case Dispatch(to) => !IsConstant(to) && a == Wrap24(TargetValue(e.w, to))
    case ServiceInterrupt(_) =>
      (match world(e.n, e.w.m).interrupt
       case Quiet => false
       case Reset(pc, _) => a == Wrap24(pc)
       case Irq(_, vector) => a == Vector(m1, vector))
    case RequireSupervisor(_) => a == Vector(m1, 8)
    case WhenOverflow(_) => a == Vector(m1, if e.trace then 9 else 7)
    case _ => e.trace && a == Vector(m1, 9)
  }

  lemma RaiseReadsVector(e: Env, returnPc: u24, vector: int)
    requires e.dispatched == []
    ensures var e1 := Raise(e, returnPc, vector);
            e1.dispatched == [Vector(e1.w.m, vector)]
  {
    hide PushExceptionFrame, Read32;
  }

  lemma InterruptReadsVector(world: World, e: Env, addr: u24)
    requires e.dispatched == []
    ensures var o := Interrupted(world, e, addr);
            match world(e.n, e.w.m).interrupt
            case Quiet => o.Next? && o.e.dispatched == []
            case Reset(pc, _) => o.Exit? && o.e.dispatched == [Wrap24(pc)]
            case Irq(_, vector) => o.Exit? && o.e.dispatched == [Vector(o.e.w.m, vector)]
  {
    hide PushInterruptFrame, Read32, SrOf;
  }

  lemma OverflowReadsVector(e: Env, addr: u24)
    requires e.dispatched == []
    ensures var o := Overflowed(e, addr);
            o.Exit? && o.e.dispatched == [Vector(o.e.w.m, if e.trace then 9 else 7)]
  {
    hide PushExceptionFrame, Read32;
  }

  lemma TraceReadsVector(e: Env, to: int, otherwise: Outcome)
    requires e.dispatched == [] && otherwise.e.dispatched == []
    ensures var o := TraceOr(e, to, otherwise);
            o.e.dispatched == [] || (e.trace && o.Exit? && o.e.dispatched == [Vector(o.e.w.m, 9)])
  {
    hide PushExceptionFrame, Read32, Wrap24;
    if e.trace {
      TracedVector(e, to);
    }
  }

  lemma TracedVector(e: Env, to: int)
    requires e.dispatched == []
    ensures Raise(e, to, 9).dispatched == [Vector(Raise(e, to, 9).w.m, 9)]
  {
    hide PushExceptionFrame, Read32;
  }

  /** A dispatch is recorded from a constant that the statement mentions, or computed. */
  lemma StatementAsks(world: World, s: Stmt, e: Env, a: u24)
    requires e.dispatched == [] && Exec(world, s, e).e.dispatched == [a]
    ensures (s.Dispatch? && C.Mentions(s, a)) || Computed(world, s, e, a)
  {
    hide Perform, Interrupted, Raise, TraceOr, Overflowed, Vector, TargetValue, Alu.EmittedCondition, CountDown, Wrap24;
    match s
    case ServiceInterrupt(addr) => InterruptReadsVector(world, e, addr);
    case ServiceTrace(to) => TraceReadsVector(e, TargetValue(e.w, to), Next(e));
    case RequireSupervisor(addr) => RaiseReadsVector(e, addr, 8);
    case GotoIf(_, target) => TraceReadsVector(e, target, Jump(target, e));
    case CountAndGoto(_, r, target) => CountReadsVector(e, r, target);
    case WhenOverflow(addr) => OverflowReadsVector(e, addr);
    case Dispatch(to) =>
      assert Exec(world, s, e).e.dispatched == [Wrap24(TargetValue(e.w, to))];
      ConstantValue(e.w, to);
    case _ =>
  }

  lemma CountReadsVector(e: Env, r: Reg, target: u24)
    requires e.dispatched == []
    ensures var o := CountDown(e, r, target);
            o.e.dispatched == [] || (e.trace && o.Exit? && o.e.dispatched == [Vector(o.e.w.m, 9)])
  {
    hide TraceOr, Vector, Low, Merge;
    var counter := (Low(e.w.m.d[r], W) + 0xFFFF) % 0x1_0000;
    var e1 := e.(w := e.w.(m := e.w.m.SetD(r, Merge(e.w.m.d[r], W, counter))));
    TraceReadsVector(e1, target, Jump(target, e1));
  }

  lemma ConstantValue(w: Work, to: Target)
    ensures IsConstant(to) ==> TargetValue(w, to) == to.e.v
  {
  }

  // ---------------------------------------------------------------- a run

  /** The run from e gets to position `at` in state e0 and records a dispatch to a there. */
  predicate Asks(world: World, code: seq<Stmt>, fuel: nat, start: nat, e: Env, at: nat, e0: Env, a: u24) {
    && Run(world, code, fuel, start, e) == Paused(at, e0)
    && at < |code| && e0.dispatched == [] && Exec(world, code[at], e0).e.dispatched == [a]
  }

  lemma {:induction false} RunAsks(world: World, code: seq<Stmt>, fuel: nat, start: nat, e: Env)
    returns (fuel0: nat, at: nat, e0: Env)
    requires Tidy(code) && e.dispatched == []
    requires var p := Run(world, code, fuel, start, e); p.Finished? && p.e.dispatched != []
    ensures fuel0 < fuel
    ensures var p := Run(world, code, fuel, start, e);
            |p.e.dispatched| == 1 && Asks(world, code, fuel0, start, e, at, e0, p.e.dispatched[0])
    decreases fuel
  {
    hide Exec, LabelAt, Tidy;
    fuel0, at, e0 := 0, start, e;
    var o := Exec(world, code[start], e);
    ExecDispatches(world, code[start], e);
    if o.e.dispatched == [] {
      if o.Next? {
        fuel0, at, e0 := RunAsks(world, code, fuel - 1, start + 1, o.e);
        fuel0 := fuel0 + 1;
      } else if o.Jump? {
        var j := LabelAt(code, o.target);
        fuel0, at, e0 := RunAsks(world, code, fuel - 1, j, o.e);
        fuel0 := fuel0 + 1;
      }
    } else if o.Next? {
      TidyReturns(code, start);
      ReturnEnds(world, code, fuel - 1, start + 1, o.e);
    }
  }

  lemma TidyReturns(code: seq<Stmt>, k: nat)
    requires Tidy(code) && k < |code| && code[k].Dispatch?
    ensures ReturnsNext(code, k)
  {
  }

  lemma ReturnEnds(world: World, code: seq<Stmt>, fuel: nat, at: nat, e: Env)
    requires at < |code| && code[at].Return? && Run(world, code, fuel, at, e).Finished?
    ensures Run(world, code, fuel, at, e) == Finished(e)
  {
    hide Exec;
    ReturnExits(world, e);
  }

  // ---------------------------------------------------------------- the closure, over runs

  /** The address a that the run of a body asked for was computed, at position `at`. */
  ghost predicate WasComputed(world: World, code: seq<Stmt>, e: Env, a: u24) {
    exists fuel: nat, at: nat, e0: Env ::
      Asks(world, code, fuel, 0, e, at, e0, a) && Computed(world, code[at], e0, a)
  }

  /** When the body of a key of the finished table runs, whatever the world does, the
      address it asks for is a case of the generated switch, or there is no code there,
      or it was computed. */
  lemma RunIsClosed(c: D.Cartridge, scanner: D.Scanner, seeds: seq<D.Ask>, t: D.Table, start: u24, limit: nat,
                    world: World, fuel: nat, e: Env)
    requires C.Finished(c, scanner, seeds, t) && C.IsKey(t, start) && e.dispatched == []
    requires var p := Run(world, BodyCode(c.view(c.active), start, limit), fuel, 0, e);
             p.Finished? && p.e.dispatched != []
    ensures var code := BodyCode(c.view(c.active), start, limit);
            var a := Run(world, code, fuel, 0, e).e.dispatched[0];
            C.HasCase(t, a) || !C.Probable(c, a) || WasComputed(world, code, e, a)
  {
    hide BodyCode, Run, Exec, Tidy, Computed, C.HasCase, C.Mentions, C.Finished, C.IsKey, C.Probable;
    var code := BodyCode(c.view(c.active), start, limit);
    BodyIsTidy(c.view(c.active), start, limit);
    var fuel0, at, e0 := RunAsks(world, code, fuel, 0, e);
    var a := Run(world, code, fuel, 0, e).e.dispatched[0];
    StatementAsks(world, code[at], e0, a);
    if C.Mentions(code[at], a) && C.Probable(c, a) {
      C.DispatchIsClosed(c, scanner, seeds, t, start, limit, code[at], a);
    }
  }
}
