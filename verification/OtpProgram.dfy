/**
 The one-time-code protocol as a program over the cache: which operations on the entries of
 one destination follow each other, given what the cache answered. It says nothing about how
 the cache stores things.
 */
module OtpProgram {
  import opened TtlMap
  import opened OtpSteps

  function LockKey(id: string): string { "otp:lock:" + id }
  function CooldownKey(id: string): string { "otp:cd:" + id }
  function CodeKey(id: string): string { "otp:code:" + id }
  function AttKey(id: string): string { "otp:att:" + id }

  /** The four keys of a destination are different, and no other destination shares them. */
  lemma KeysApart(id: string, other: string)
    ensures LockKey(id) != CooldownKey(other) && LockKey(id) != CodeKey(other) && LockKey(id) != AttKey(other)
    ensures CooldownKey(id) != CodeKey(other) && CooldownKey(id) != AttKey(other) && CodeKey(id) != AttKey(other)
    ensures id != other ==> LockKey(id) != LockKey(other) && CooldownKey(id) != CooldownKey(other)
                            && CodeKey(id) != CodeKey(other) && AttKey(id) != AttKey(other)
  {
    assert LockKey(id)[4] == 'l' && AttKey(other)[4] == 'a' && CooldownKey(other)[4] == 'c' && CodeKey(other)[4] == 'c';
    assert CooldownKey(id)[4] == 'c' && CodeKey(id)[4] == 'c' && CooldownKey(id)[5] == 'd' && CodeKey(other)[5] == 'o';
    assert LockKey(id)[9..] == id && LockKey(other)[9..] == other;
    assert CooldownKey(id)[7..] == id && CooldownKey(other)[7..] == other;
    assert CodeKey(id)[9..] == id && CodeKey(other)[9..] == other;
    assert AttKey(id)[8..] == id && AttKey(other)[8..] == other;
  }

  predicate OwnKey(id: string, key: string)
  {
    key == LockKey(id) || key == CooldownKey(id) || key == CodeKey(id) || key == AttKey(id)
  }

  /** One operation and its answer: whether the key was live, its value, and for an increment
      the new count. */
  datatype Access = Access(op: Op, hit: bool, value: string, n: int)

  /** Where a call stands. Both calls begin by reading the lock. */
  datatype Phase = Idle
                 | Claiming | Claimed | Resetting | Unsending | Unclaiming
                 | Counting | Locking | Discarding | Comparing | Consuming | Forgetting

  /** The next operation of a call, and where it leads. Entropy and the send may fail, and a
      guess may be right or wrong. */
  ghost predicate Follows(cfg: Config, id: string, p: Phase, a: Access, p': Phase)
  {
    match p
    case Idle => a.op == Get(LockKey(id)) && (if a.hit then p' == Idle else p' == Claiming || p' == Counting)
    case Claiming =>
      a.op == SetNX(CooldownKey(id), "\U{1}", cfg.cooldown) && p' == (if a.hit then Idle else Claimed)
    case Claimed =>
      || (a.op == Delete(CooldownKey(id)) && p' == Idle)
      || (a.op.Set? && a.op.key == CodeKey(id) && a.op.ttl == cfg.ttl && p' == Resetting)
    case Resetting => a.op == Delete(AttKey(id)) && (p' == Idle || p' == Unsending)
    case Unsending => a.op == Delete(CodeKey(id)) && p' == Unclaiming
    case Unclaiming => a.op == Delete(CooldownKey(id)) && p' == Idle
    case Counting =>
      a.op == Incr(AttKey(id), cfg.lockout) && p' == (if a.n > cfg.maxAttempts then Locking else Comparing)
    case Locking => a.op == Set(LockKey(id), "\U{1}", cfg.lockout) && p' == Discarding
    case Discarding => a.op == Delete(CodeKey(id)) && p' == Idle
    case Comparing => a.op == Get(CodeKey(id)) && (p' == Idle || (a.hit && p' == Consuming))
    case Consuming => a.op == Delete(CodeKey(id)) && p' == Forgetting
    case Forgetting => a.op == Delete(AttKey(id)) && p' == Idle
  }
}
