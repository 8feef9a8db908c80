/** Saved user registers (inc/trap.h). Segment selectors are not part of this model. */
module Trapframes {
  import opened Layout

  datatype Regs = Regs(edi: nat, esi: nat, ebp: nat, oesp: nat, ebx: nat, edx: nat, ecx: nat, eax: nat)

  datatype Trapframe = Trapframe(regs: Regs, err: nat, eip: nat, eflags: nat, esp: nat)

  const FL_IF: nat := 0x200

  /** What env_alloc leaves in a new environment's env_tf. */
  const NEW_ENV_TF: Trapframe := Trapframe(Regs(0, 0, 0, 0, 0, 0, 0, 0), 0, 0, FL_IF, USTACKTOP)

  function WithEax(tf: Trapframe, v: nat): Trapframe {
    tf.(regs := tf.regs.(eax := v))
  }
}
