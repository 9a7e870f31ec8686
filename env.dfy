/**
 * The environment: a stack of frames, each mapping names to values. The
 * last frame of the sequence is the innermost one.
 */
module Env {
  import opened Values

  type Frame = map<string, Variable>

  /** Frame `k` binds `id`, and no frame after it does. */
  ghost predicate InnermostAt(frames: seq<Frame>, id: string, k: int) {
    0 <= k < |frames| && id in frames[k] &&
    forall j | k < j < |frames| :: id !in frames[j]
  }

  /** The binding of `id` in the innermost frame that has one, if any. */
  function Lookup(frames: seq<Frame>, id: string): Option<Variable> {
    if |frames| == 0 then None
    else if id in frames[|frames| - 1] then Some(frames[|frames| - 1][id])
    else Lookup(frames[..|frames| - 1], id)
  }

  /**
   * `Lookup` is absent exactly when no frame binds `id`, and otherwise gives
   * the value bound in the innermost frame that binds it.
   */
  lemma {:induction false} LookupInnermost(frames: seq<Frame>, id: string)
    ensures Lookup(frames, id).None? <==> forall k | 0 <= k < |frames| :: id !in frames[k]
    ensures Lookup(frames, id).Some? ==>
      exists k :: InnermostAt(frames, id, k) && frames[k][id] == Lookup(frames, id).value
  {
    if |frames| > 0 && id !in frames[|frames| - 1] {
      var prefix := frames[..|frames| - 1];
      LookupInnermost(prefix, id);
      assert forall k | 0 <= k < |frames| - 1 :: prefix[k] == frames[k];
      if Lookup(prefix, id).Some? {
        var k :| InnermostAt(prefix, id, k) && prefix[k][id] == Lookup(prefix, id).value;
        assert InnermostAt(frames, id, k);
      }
    } else if |frames| > 0 {
      assert InnermostAt(frames, id, |frames| - 1);
    }
  }

  /** Looking up in the first `i` frames tries frame `i - 1` first, then the ones below it. */
  lemma LookupPrefix(frames: seq<Frame>, id: string, i: int)
    requires 0 < i <= |frames|
    ensures Lookup(frames[..i], id) ==
      if id in frames[i - 1] then Some(frames[i - 1][id]) else Lookup(frames[..i - 1], id)
  {
    assert frames[..i][i - 1] == frames[i - 1];
    assert frames[..i][..i - 1] == frames[..i - 1];
  }

  /**
   * `frames` with `id` bound to `v` in the top frame: the number of frames and
   * every lower frame stay the same, `id` now resolves to `v`, and every other
   * name resolves as before.
   */
  function Bind(frames: seq<Frame>, id: string, v: Variable): (r: seq<Frame>)
    requires |frames| > 0
    ensures |r| == |frames| && r[..|r| - 1] == frames[..|frames| - 1]
    ensures id in r[|r| - 1] && r[|r| - 1][id] == v
    ensures Lookup(r, id) == Some(v)
    ensures forall other | other != id :: Lookup(r, other) == Lookup(frames, other)
  {
    var r := frames[..|frames| - 1] + [frames[|frames| - 1][id := v]];
    assert r[..|r| - 1] == frames[..|frames| - 1];
    r
  }

  /**
   * Shadowing: with `x` bound to `a` in the top frame, pushing a frame and
   * binding `x` to `b` there makes `x` resolve to `b`; popping that frame
   * gives back exactly the frames from before the push, where `x` resolves
   * to `a`.
   */
  lemma Shadowing(frames: seq<Frame>, x: string, a: Variable, b: Variable)
    requires |frames| > 0 && x in frames[|frames| - 1] && frames[|frames| - 1][x] == a
    ensures var inner := Bind(frames + [map[]], x, b);
      && Lookup(inner, x) == Some(b)
      && inner[..|inner| - 1] == frames
      && Lookup(inner[..|inner| - 1], x) == Some(a)
  {
    var pushed := frames + [map[]];
    assert pushed[..|pushed| - 1] == frames;
  }

  /** The environment object: a frame stack updated in place. */
  class Vars {
    var frames: seq<Frame>

    /** A fresh environment holds one frame, and it is empty. */
    constructor ()
      ensures frames == [map[]]
    {
      frames := [map[]];
    }

    /** Adds an empty innermost frame. */
    method Push()
      modifies this
      ensures frames == old(frames) + [map[]]
    {
      frames := frames + [map[]];
    }

    /** Drops the innermost frame; on an empty stack it does nothing. */
    method Pop()
      modifies this
      ensures old(|frames|) > 0 ==> frames == old(frames[..|frames| - 1])
      ensures old(|frames|) == 0 ==> frames == old(frames)
    {
      if |frames| > 0 {
        frames := frames[..|frames| - 1];
      }
    }

    /**
     * Binds `id` to `data` in the top frame only: the number of frames and
     * every lower frame are unchanged, and `id` now resolves to `data`.
     */
    method Insert(id: string, data: Variable)
      requires |frames| > 0
      modifies this
      ensures |frames| == old(|frames|)
      ensures frames[..|frames| - 1] == old(frames[..|frames| - 1])
      ensures frames[|frames| - 1] == old(frames[|frames| - 1])[id := data]
      ensures frames == Bind(old(frames), id, data)
      ensures Lookup(frames, id) == Some(data)
    {
      frames := frames[..|frames| - 1] + [frames[|frames| - 1][id := data]];
      assert frames[..|frames| - 1] == old(frames[..|frames| - 1]);
    }

    /**
     * Scans the frames from the innermost outwards and returns the first
     * binding of `id`. It has no modifies clause: the environment is unchanged.
     */
    method Get(id: string) returns (r: Option<Variable>)
      ensures r == Lookup(frames, id)
    {
      var i := |frames|;
      assert frames[..i] == frames;
      while i > 0
        invariant 0 <= i <= |frames|
        invariant Lookup(frames, id) == Lookup(frames[..i], id)
      {
        LookupPrefix(frames, id, i);
        if id in frames[i - 1] {
          return Some(frames[i - 1][id]);
        }
        i := i - 1;
      }
      return None;
    }
  }

  /**
   * Shadowing on the environment object: bind `x` to `a`, push, bind `x` to
   * `b`, look `x` up, pop, look `x` up again. The inner lookup sees `b`, the
   * outer one `a`, and the frames end as they were after the first binding.
   */
  method ShadowingScenario(env: Vars, x: string, a: Variable, b: Variable)
    returns (inner: Option<Variable>, outer: Option<Variable>)
    requires |env.frames| > 0
    modifies env
    ensures inner == Some(b) && outer == Some(a)
    ensures env.frames == Bind(old(env.frames), x, a)
  {
    env.Insert(x, a);
    ghost var before := env.frames;
    env.Push();
    env.Insert(x, b);
    inner := env.Get(x);
    env.Pop();
    Shadowing(before, x, a, b);
    outer := env.Get(x);
  }
}
