/** The machine and the kernel together, at the height the terminal is built with. */
module Whole {
  import opened Screens
  import opened Kernels
  import opened KernelRuns
  import opened EndToEnd
  import Machine
  import Readings

  /**
   Any interleaving of interrupts with the main loop, any outputs: the keys that reached the
   kernel are the first of the accepted ones, in order, all of them once the processor sleeps,
   and what they did is what the ten simple editors and the shell make of them.
   */
  lemma KeysReachTheEditors(wheel: bool, steps: seq<Machine.Step>, inputs: seq<Input>)
    requires Scancodes(inputs) == Machine.Execute(true, Machine.Init(wheel), steps).handled
    ensures Inv(BootKernel(TERMINAL_HEIGHT))
    ensures Scancodes(inputs) <= Machine.Accepted(Machine.Execute(true, Machine.Init(wheel), steps).offered)
    ensures SimpleOf(Run(BootKernel(TERMINAL_HEIGHT), inputs))
         == SimpleRun(SimpleOf(BootKernel(TERMINAL_HEIGHT)), Scancodes(inputs))
    ensures
      var s := Machine.Execute(true, Machine.Init(wheel), steps);
      s.pc.Halted? ==> Scancodes(inputs) == Machine.Accepted(s.offered)
  {
    BootKeeps(TERMINAL_HEIGHT);
    Machine.EveryKeyOnceInOrder(wheel, steps);
    Machine.NeverSleepsOnInput(wheel, steps, 0);
    KernelIsSimple(BootKernel(TERMINAL_HEIGHT), inputs);
  }

  lemma {:induction false} AllAccepted(offered: seq<Machine.Offer>)
    requires forall o | o in offered :: o.accepted
    ensures Machine.Accepted(offered) == Readings.OfferedKeys(offered)
    decreases |offered|
  {
    if offered != [] {
      var last := |offered| - 1;
      assert offered[last] in offered;
      AllAccepted(offered[..last]);
      assert Readings.OfferedKeys(offered) == Readings.OfferedKeys(offered[..last]) + [offered[last].key];
    }
  }

  /**
   From the controller to the editors: once the processor sleeps, and if never 127 scancodes
   were waiting, the keys handled are all that the handlers' reads asked for, in order: every
   byte of the keyboard, and a key for every wheel byte of the mouse that is not zero.
   */
  lemma EveryReadReachesTheEditors(wheel: bool, steps: seq<Machine.Step>, inputs: seq<Input>)
    requires Scancodes(inputs) == Machine.Execute(true, Machine.Init(wheel), steps).handled
    ensures
      var s := Machine.Execute(true, Machine.Init(wheel), steps);
      var rs := Readings.Reads(Machine.Init(wheel), steps);
      s.pc.Halted? && (forall o | o in s.offered :: o.waiting < 127) ==>
        Scancodes(inputs) == Readings.PushedKeys(Readings.Pushes(Machine.Init(wheel).mouse, rs))
  {
    var s := Machine.Execute(true, Machine.Init(wheel), steps);
    Machine.InitInv(wheel);
    Machine.RunKeepsInv(Machine.Init(wheel), steps);
    Machine.NeverSleepsOnInput(wheel, steps, 0);
    Machine.EveryKeyOnceInOrder(wheel, steps);
    Readings.OffersAreRead(wheel, steps);
    if s.pc.Halted? && forall o | o in s.offered :: o.waiting < 127 {
      AllAccepted(s.offered);
    }
  }
}
