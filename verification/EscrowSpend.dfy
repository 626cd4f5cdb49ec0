/** The escrow script on the interpreter object itself, whatever buffers its items share. */
module EscrowSpend {
  import opened Bytes
  import opened Script
  import opened Machine
  import opened Escrow
  import opened EscrowTheorems
  import opened EscrowStack
  import I = Interpreter

  /** A fresh interpreter holds the redeem script, and on its stack buffers with the strings st. */
  method RunSpend(vm: I.Interpreter, keys: seq<Bytes>, reclaimKey: Bytes, ghost st: seq<Bytes>, size: nat)
    returns (ok: bool)
    requires vm.Valid() && vm.Intact() && vm.TheState() == Start(st) && st != []
    requires 1 <= |keys| <= MAX_KEYS && HashIs20(vm.env) && size <= 10000
    requires vm.Ctx().script == RedeemScript(vm.env, keys, reclaimKey)
    requires vm.env.hash160(Top(st, 1)) != vm.env.hash160(reclaimKey)
    modifies vm, vm.Memory()
    ensures ok ==> vm.Valid()
    ensures ok && vm.V() == [TRUE] <==> IsSpend(old(vm.Ctx()), keys, st)
  {
    hide IsSpend, RedeemScript, RunTo;
    ghost var ctx := vm.Ctx();
    RedeemScriptNeverWrites(vm.env, keys, reclaimKey);
    EscrowScriptOnAnyStack(vm.env, vm.flags, keys, reclaimKey, st, size);
    vm.NoWritesHere();
    ok := vm.EvaluateScript(size);
  }
}
