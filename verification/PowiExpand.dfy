/**
 The code generator `expand_powi` of builtins.c. Emitting a multiplication
 appends to a list; the registers hold powers of `x`.
 */
module PowiExpand {
  import opened Helpers
  import opened PowerTree
  import opened Powi

  type Reg = nat
  const NO_REG: Reg := 0

  /** `target = left * right` */
  datatype Insn = Mult(target: Reg, left: Reg, right: Reg)

  /** The exponents of `x` the registers hold after the code has run; none if
      an operand is read before it is assigned or a register assigned twice. */
  function Run(code: seq<Insn>, env: map<Reg, nat>): Option<map<Reg, nat>> {
    if code == [] then Some(env) else
      var i := code[0];
      if i.left in env && i.right in env && i.target !in env
      then Run(code[1..], env[i.target := env[i.left] + env[i.right]])
      else None
  }

  lemma {:induction false} RunAppend(code: seq<Insn>, i: Insn, env: map<Reg, nat>)
    requires Run(code, env).Some?
    ensures Run(code + [i], env) ==
            var e := Run(code, env).value;
            if i.left in e && i.right in e && i.target !in e
            then Some(e[i.target := e[i.left] + e[i.right]]) else None
  {
    if code == [] {
      assert code + [i] == [i];
    } else {
      assert (code + [i])[1..] == code[1..] + [i];
      var j := code[0];
      RunAppend(code[1..], i, env[j.target := env[j.left] + env[j.right]]);
    }
  }

  // ----- what the generator requests -----

  /** The table exponents `expand_powi_1` computes. */
  ghost function ExpandSet(n: nat): (c: set<nat>)
    requires 0 < n
    ensures 1 in c
    decreases n
  {
    if n < TABLE_SIZE then Closure(n)
    else if n % 2 == 1 then ExpandSet(n - n % RADIX) + Closure(n % RADIX)
    else ExpandSet(n / 2)
  }

  /** The multiplications for exponents beyond the table. */
  function ExpandBig(n: nat): nat
    decreases n
  {
    if n < TABLE_SIZE then 0
    else if n % 2 == 1 then 1 + ExpandBig(n - n % RADIX)
    else 1 + ExpandBig(n / 2)
  }

  ghost function Cached(cache: seq<Reg>): set<nat> {
    set i: nat | i < |cache| && cache[i] != NO_REG
  }

  /** The registers cached for exponents up to `n` hold those powers. */
  ghost predicate CacheOk(cache: seq<Reg>, env: map<Reg, nat>, n: nat) {
    forall m: nat :: m < |cache| && m <= n && cache[m] != NO_REG ==> cache[m] in env && env[cache[m]] == m
  }

  /** Entries stay once made, and the new ones hold their powers. */
  ghost predicate CacheGrew(cache: seq<Reg>, cache': seq<Reg>, env': map<Reg, nat>) {
    && |cache'| == |cache|
    && (forall m: nat :: m < |cache| ==>
          if cache[m] != NO_REG then cache'[m] == cache[m]
          else cache'[m] != NO_REG ==> cache'[m] in env' && env'[cache'[m]] == m)
  }

  /** The registers of `env` keep their values; any others were not in use before. */
  ghost predicate EnvGrew(env: map<Reg, nat>, env': map<Reg, nat>, regs: Reg) {
    && (forall r :: r in env ==> r in env' && env'[r] == env[r])
    && (forall r :: r in env' && r !in env ==> regs < r)
  }

  /** Two rounds of growth, and a register reserved before them, assigned after. */
  lemma EnvDone(env0: map<Reg, nat>, r0: Reg, env1: map<Reg, nat>, r1: Reg, env2: map<Reg, nat>, target: Reg, v: nat)
    requires EnvGrew(env0, env1, target) && EnvGrew(env1, env2, r1) && r0 < target <= r1 && target !in env0
    ensures target !in env2 && EnvGrew(env0, env2, r0) && EnvGrew(env0, env2[target := v], r0)
  {
  }

  class Emitter {
    var code: seq<Insn>
    /** The last register handed out. */
    var regs: Reg
    const x: Reg

    constructor (x: Reg)
      requires x != NO_REG
      ensures this.x == x && code == [] && regs == x
    {
      this.x := x;
      code, regs := [], x;
    }

    ghost function Start(): map<Reg, nat> { map[x := 1] }

    /** The code emitted so far runs, and uses registers up to `regs`. */
    ghost predicate Valid()
      reads this
    {
      Run(code, Start()).Some? && forall r :: r in Env() ==> NO_REG < r <= regs
    }

    /** What the registers hold. */
    ghost function Env(): map<Reg, nat>
      reads this
    {
      if Run(code, Start()).Some? then Run(code, Start()).value else map[]
    }

    /** `gen_reg_rtx` */
    method GenReg() returns (r: Reg)
      requires Valid()
      modifies `regs
      ensures Valid() && r == regs == old(regs) + 1 && Env() == old(Env())
    {
      r := regs + 1;
      regs := r;
      assert Env() == old(Env());
    }

    /** `expand_mult` into a target that has not been assigned. */
    method EmitMult(target: Reg, left: Reg, right: Reg)
      requires Valid() && left in Env() && right in Env() && target !in Env() && NO_REG < target <= regs
      modifies `code
      ensures Valid() && code == old(code) + [Mult(target, left, right)]
      ensures Env() == old(Env())[target := old(Env()[left]) + old(Env()[right])]
    {
      RunAppend(code, Mult(target, left, right), Start());
      code := code + [Mult(target, left, right)];
    }

    /** `expand_powi_1` */
    method Expand(n: nat, cache: array<Reg>) returns (target: Reg)
      requires Valid() && 0 < n && cache.Length == TABLE_SIZE
      requires CacheOk(cache[..], Env(), n) && 1 in Cached(cache[..])
      requires ClosedUpTo(Cached(cache[..]), if n < TABLE_SIZE then n else TABLE_SIZE)
      modifies `code, `regs, cache
      ensures Valid() && target in Env() && Env()[target] == n
      ensures EnvGrew(old(Env()), Env(), old(regs)) && old(regs) <= regs
      ensures CacheGrew(old(cache[..]), cache[..], Env())
      ensures Cached(cache[..]) == old(Cached(cache[..])) + ExpandSet(n)
      ensures |code| - |old(code)| == |Cached(cache[..])| - |old(Cached(cache[..]))| + ExpandBig(n)
      decreases n
    {
      hide Closure, Table, Run, Env;
      if n < TABLE_SIZE {
        target := ExpandSmall(n, cache);
      } else if n % 2 == 1 {
        target := ExpandOdd(n, cache);
      } else {
        target := GenReg();
        ghost var env := Env();
        var op := Expand(n / 2, cache);
        EmitMult(target, op, op);
      }
    }

    method ExpandSmall(n: nat, cache: array<Reg>) returns (target: Reg)
      requires Valid() && 0 < n < TABLE_SIZE && cache.Length == TABLE_SIZE
      requires CacheOk(cache[..], Env(), n) && 1 in Cached(cache[..])
      requires ClosedUpTo(Cached(cache[..]), n)
      modifies `code, `regs, cache
      ensures Valid() && target in Env() && Env()[target] == n
      ensures EnvGrew(old(Env()), Env(), old(regs)) && old(regs) <= regs
      ensures CacheGrew(old(cache[..]), cache[..], Env())
      ensures Cached(cache[..]) == old(Cached(cache[..])) + Closure(n)
      ensures |code| - |old(code)| == |Cached(cache[..])| - |old(Cached(cache[..]))|
      decreases n, 0
    {
      hide Closure, Table, Run, Env, ClosedUpTo, CacheGrew, CacheOk, EnvGrew, Cached;
      ghost var c0, env0 := cache[..], Env();
      if cache[n] != NO_REG {
        CachedClosed(c0, n);
        CacheSame(c0, env0, n, regs);
        return cache[n];
      }
      NotOne(c0, n);
      TableSplits2(n);
      target := GenReg();
      cache[n] := target;
      ghost var c1, s := cache[..], Cached(c0);
      CachedOne(c0, n, target);
      EnvSelf(env0, target);
      CacheStart(c0, n, target, env0, n - Table(n));
      StillClosed(s, n, n - Table(n));
      var op0 := Expand(n - Table(n), cache);
      ghost var c2, env2, r2 := cache[..], Env(), regs;
      ClosedAgain(s, n, n - Table(n), Table(n));
      CacheStill(c0, c1, n, target, env0, c2, env2, Table(n), target);
      var op1 := Expand(Table(n), cache);
      ghost var c3, env3 := cache[..], Env();
      EnvDone(env0, old(regs), env2, r2, env3, target, n);
      EnvAt(env2, env3, r2, op0);
      EmitMult(target, op0, op1);
      ghost var env4 := Env();
      CacheDone(c0, c1, n, target, c2, env2, c3, env3, env4, r2);
      assert Cached(c3) == s + Closure(n);
    }

    method ExpandOdd(n: nat, cache: array<Reg>) returns (target: Reg)
      requires Valid() && TABLE_SIZE <= n && n % 2 == 1 && cache.Length == TABLE_SIZE
      requires CacheOk(cache[..], Env(), n) && 1 in Cached(cache[..])
      requires ClosedUpTo(Cached(cache[..]), TABLE_SIZE)
      modifies `code, `regs, cache
      ensures Valid() && target in Env() && Env()[target] == n
      ensures EnvGrew(old(Env()), Env(), old(regs)) && old(regs) <= regs
      ensures CacheGrew(old(cache[..]), cache[..], Env())
      ensures Cached(cache[..]) == old(Cached(cache[..])) + ExpandSet(n)
      ensures |code| - |old(code)| == |Cached(cache[..])| - |old(Cached(cache[..]))| + ExpandBig(n)
      decreases n, 0
    {
      hide Closure, Table, Run, Env, ClosedUpTo, CacheGrew, EnvGrew, Cached;
      ghost var c0, env0, s := cache[..], Env(), Cached(cache[..]);
      target := GenReg();
      var digit := n % RADIX;
      var op0 := Expand(n - digit, cache);
      ghost var c2, env2, r2 := cache[..], Env(), regs;
      ExpandClosed(s, n - digit);
      AllClosed(s + ExpandSet(n - digit), digit);
      CacheStillAll(c0, env0, c2, env2, digit, target);
      var op1 := Expand(digit, cache);
      ghost var c3, env3 := cache[..], Env();
      EnvDone(env0, old(regs), env2, r2, env3, target, n);
      EnvAt(env2, env3, r2, op0);
      CacheTwice(c0, c2, env2, c3, env3, r2);
      EmitMult(target, op0, op1);
      CacheUnder(c0, c3, env3, target, n);
      assert (s + ExpandSet(n - digit)) + Closure(digit) == s + ExpandSet(n);
    }
  }

  lemma CachedClosed(c: seq<Reg>, n: nat)
    requires 0 < n < |c| == TABLE_SIZE && c[n] != NO_REG && ClosedUpTo(Cached(c), n)
    ensures Cached(c) + Closure(n) == Cached(c)
  {
    hide Closure;
    assert n in Cached(c);
  }

  lemma CacheSame(c: seq<Reg>, env: map<Reg, nat>, n: nat, regs: Reg)
    requires CacheOk(c, env, n) && n < |c| && c[n] != NO_REG
    ensures CacheGrew(c, c, env) && EnvGrew(env, env, regs) && c[n] in env && env[c[n]] == n
  {
  }

  lemma EnvSelf(env: map<Reg, nat>, regs: Reg)
    ensures EnvGrew(env, env, regs)
  {
  }

  lemma EnvAt(env: map<Reg, nat>, env': map<Reg, nat>, regs: Reg, r: Reg)
    requires EnvGrew(env, env', regs) && r in env
    ensures r in env' && env'[r] == env[r]
  {
  }

  lemma CachedOne(c: seq<Reg>, n: nat, target: Reg)
    requires n < |c| && target != NO_REG
    ensures Cached(c[n := target]) == Cached(c) + {n}
  {
  }

  lemma CacheStart(c: seq<Reg>, n: nat, target: Reg, env: map<Reg, nat>, t: nat)
    requires t < n < |c| && CacheOk(c, env, n)
    ensures CacheOk(c[n := target], env, t)
  {
  }

  /** Assigning one more register does not disturb the new entries. */
  lemma CacheUnder(c: seq<Reg>, c': seq<Reg>, env: map<Reg, nat>, target: Reg, v: nat)
    requires CacheGrew(c, c', env) && target !in env
    ensures CacheGrew(c, c', env[target := v])
  {
  }

  lemma NotOne(c: seq<Reg>, n: nat)
    requires 0 < n < |c| && c[n] == NO_REG && 1 in Cached(c)
    ensures n > 1 && n !in Cached(c)
  {
  }

  lemma StillClosed(s: set<nat>, n: nat, a: nat)
    requires ClosedUpTo(s, n) && a < n
    ensures ClosedUpTo(s + {n}, a)
  {
    hide Closure;
  }

  /** Up to `t`, the entries are those from before `n` was entered, and new ones. */
  lemma CacheStill(c0: seq<Reg>, c1: seq<Reg>, n: nat, target: Reg, env0: map<Reg, nat>, c2: seq<Reg>,
                   env2: map<Reg, nat>, t: nat, regs: Reg)
    requires t < n < |c0| && c1 == c0[n := target] && CacheOk(c0, env0, n) && CacheGrew(c1, c2, env2)
    requires EnvGrew(env0, env2, regs)
    ensures CacheOk(c2, env2, t)
  {
    forall m: nat | m < |c2| && m <= t && c2[m] != NO_REG
      ensures c2[m] in env2 && env2[c2[m]] == m
    {
      assert c1[m] == c0[m];
    }
  }

  lemma CacheStillAll(c0: seq<Reg>, env0: map<Reg, nat>, c2: seq<Reg>, env2: map<Reg, nat>, t: nat, regs: Reg)
    requires CacheOk(c0, env0, TABLE_SIZE) && |c0| == TABLE_SIZE && CacheGrew(c0, c2, env2)
    requires EnvGrew(env0, env2, regs)
    ensures CacheOk(c2, env2, t)
  {
    forall m: nat | m < |c2| && m <= t && c2[m] != NO_REG
      ensures c2[m] in env2 && env2[c2[m]] == m
    {
      assert m < |c0|;
    }
  }

  lemma CacheTwice(c0: seq<Reg>, c1: seq<Reg>, env1: map<Reg, nat>, c2: seq<Reg>, env2: map<Reg, nat>, regs: Reg)
    requires CacheGrew(c0, c1, env1) && CacheGrew(c1, c2, env2)
    requires EnvGrew(env1, env2, regs)
    ensures CacheGrew(c0, c2, env2)
  {
    forall m: nat | m < |c0|
      ensures if c0[m] != NO_REG then c2[m] == c0[m] else c2[m] != NO_REG ==> c2[m] in env2 && env2[c2[m]] == m
    {
      assert m < |c1|;
    }
  }

  lemma CacheDone(c0: seq<Reg>, c1: seq<Reg>, n: nat, target: Reg, c2: seq<Reg>, env2: map<Reg, nat>, c3: seq<Reg>,
                  env3: map<Reg, nat>, env4: map<Reg, nat>, regs: Reg)
    requires n < |c0| && c0[n] == NO_REG && target != NO_REG && c1 == c0[n := target]
    requires CacheGrew(c1, c2, env2) && CacheGrew(c2, c3, env3)
    requires EnvGrew(env2, env3, regs)
    requires target !in env3 && env4 == env3[target := n]
    ensures CacheGrew(c0, c3, env4)
  {
    CacheTwice(c1, c2, env2, c3, env3, regs);
    forall m: nat | m < |c0|
      ensures if c0[m] != NO_REG then c3[m] == c0[m] else c3[m] != NO_REG ==> c3[m] in env4 && env4[c3[m]] == m
    {
      assert m < |c1|;
    }
  }

  lemma {:induction false} ExpandClosed(s: set<nat>, n: nat)
    requires 0 < n && ClosedUpTo(s, TABLE_SIZE)
    ensures ClosedUpTo(s + ExpandSet(n), TABLE_SIZE)
    decreases n
  {
    hide Closure, ClosedUpTo;
    if n < TABLE_SIZE {
      ClosedMore(s, n);
    } else if n % 2 == 1 {
      var d := n % RADIX;
      ExpandClosed(s, n - d);
      ClosedMore(s + ExpandSet(n - d), d);
      assert s + ExpandSet(n) == (s + ExpandSet(n - d)) + Closure(d);
    } else {
      ExpandClosed(s, n / 2);
    }
  }
}
