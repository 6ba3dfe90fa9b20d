/** When a return is kept: one that returns a value is, if the value is asked for or ends a
    thread (tools/PrintBug/PrintBug.cpp, lines 165-170, 298-305). */
module Returns {
  import opened Common
  import opened Executions
  import opened Slice
  import opened SliceSound
  import opened Flags
  import opened Terminators
  import opened Reasons

  /** The value of `key` is asked for after execution p, by what is kept or kept late. */
  ghost predicate Asked(ctx: Context, s: Scan, p: nat, key: Key)
    requires ctx.Good() && p < |ctx.E|
  {
    KeyOwed(ctx, s.kept, p + 1, ctx.E[p].block + 1, key) || LateOwed(ctx, s.late, p + 1, key)
  }

  /** The code of execution p reads "ret " and goes on with anything but "v". */
  ghost predicate ReturnsValue(ctx: Context, p: nat)
    requires ctx.Good() && p < |ctx.E|
  {
    var code := ctx.prog.ins[ctx.E[p].id].code;
    exists n: nat :: BeginsAt(code, n) && n + 4 < |code| && code[n + 4] != 'v'
  }

  /** A return of a value is kept exactly if it ends a thread, or somebody asks for the call
      that it returns to, or for the return itself. */
  lemma {:induction false} ValueReturnKept(ctx: Context, p: nat)
    requires ctx.Good() && Framed(ctx.prog, ctx.trace) && ReturnsMarked(ctx.prog, ctx.trace) && p < |ctx.E|
    requires ctx.E[p].block < |ctx.trace| && ctx.trace[ctx.E[p].block].typ == NormalBlock
    requires ctx.prog.ins[ctx.E[p].id].typ == ReturnInst && ReturnsValue(ctx, p)
    ensures var (s, b) := (Scanned(ctx, 0), ctx.trace[ctx.E[p].block]);
            p in s.kept <==>
              || b.isLast == 2 || Asked(ctx, s, p, (ctx.E[p].tid, ctx.E[p].id))
              || (b.caller.Some? && Asked(ctx, s, p, (b.tid, b.caller.value)))
  {
    hide Base, Framed, ReturnsMarked, Scanned, KeyOwed, LateOwed, LateReason, DepOwed, LateDep, DynAt;
    ValueNotVoid(ctx.prog.ins[ctx.E[p].id].code);
    KeptExactly(ctx);
  }

  /** ... and a return of nothing always is. */
  lemma {:induction false} VoidReturnKept(ctx: Context, p: nat, n: nat)
    requires ctx.Good() && Framed(ctx.prog, ctx.trace) && ReturnsMarked(ctx.prog, ctx.trace) && p < |ctx.E|
    requires ctx.E[p].block < |ctx.trace| && ctx.trace[ctx.E[p].block].typ == NormalBlock
    requires ctx.prog.ins[ctx.E[p].id].typ == ReturnInst
    requires var code := ctx.prog.ins[ctx.E[p].id].code;
             BeginsAt(code, n) && n + 8 <= |code| && code[n..n + 8] == "ret void"
    ensures p in Scanned(ctx, 0).kept
  {
    hide Base, Framed, ReturnsMarked, Scanned, KeyOwed, LateOwed, LateReason, OwedLate, ReturnVoid;
    ReturnVoidMeans(ctx.prog.ins[ctx.E[p].id].code);
    KeptExactly(ctx);
  }

  lemma {:induction false} ValueNotVoid(code: string)
    requires exists n: nat :: BeginsAt(code, n) && n + 4 < |code| && code[n + 4] != 'v'
    ensures !ReturnVoid(code)
  {
    var n: nat :| BeginsAt(code, n) && n + 4 < |code| && code[n + 4] != 'v';
    ReturnVoidMeans(code);
    if ReturnVoid(code) {
      var n': nat :| BeginsAt(code, n') && n' + 8 <= |code| && code[n'..n' + 8] == "ret void";
      BeginsOnce(code, n);
      BeginsOnce(code, n');
    }
  }
}
