/** The exclusive resources (video, vbi) of a device and the file handles that hold them. */
module Resources {

  /** A word of resource bits, as the set of its bits. */
  type Bits = set<nat>

  const VIDEO_BIT: nat := 0
  const VBI_BIT: nat := 1

  /** What each handle holds, and what the device records as taken. */
  datatype State = State(held: seq<Bits>, taken: Bits)

  ghost predicate HeldBy(s: State, i: nat, b: nat) {
    i < |s.held| && b in s.held[i]
  }

  /** No bit is held twice, and the device's record is exact. */
  ghost predicate Exclusive(s: State) {
    && (forall i, j, b :: HeldBy(s, i, b) && HeldBy(s, j, b) ==> i == j)
    && (forall b :: b in s.taken <==> exists i :: HeldBy(s, i, b))
  }

  datatype Op =
    | Open
    | Get(handle: nat, bits: Bits)
    | Free(handle: nat, bits: Bits)
    | Close(handle: nat)

  /** res_get's answer. */
  predicate Granted(s: State, i: nat, bits: Bits)
    requires i < |s.held|
  {
    s.held[i] * bits != {} || s.taken * bits == {}
  }

  function GetBits(s: State, i: nat, bits: Bits): State
    requires i < |s.held|
  {
    if s.held[i] * bits != {} || s.taken * bits != {} then s
    else State(s.held[i := s.held[i] + bits], s.taken + bits)
  }

  function FreeBits(s: State, i: nat, bits: Bits): State
    requires i < |s.held|
  {
    State(s.held[i := s.held[i] - bits], s.taken - bits)
  }

  function ReleaseBit(s: State, i: nat, bit: nat): (t: State)
    requires i < |s.held|
    ensures |t.held| == |s.held|
  {
    if bit in s.held[i] then FreeBits(s, i, {bit}) else s
  }

  /** video_release: the handle gives back video and vbi, and is gone. */
  function CloseHandle(s: State, i: nat): State
    requires i < |s.held|
  {
    var t := ReleaseBit(ReleaseBit(s, i, VIDEO_BIT), i, VBI_BIT);
    t.(held := t.held[..i] + t.held[i + 1..])
  }

  /** The bits asked for are those of tw68_resource; res_free insists on bits that are held. */
  predicate Allowed(s: State, op: Op) {
    match op
    case Open => true
    case Get(i, bits) => i < |s.held| && bits <= {VIDEO_BIT, VBI_BIT}
    case Free(i, bits) => i < |s.held| && bits <= s.held[i]
    case Close(i) => i < |s.held|
  }

  function Apply(s: State, op: Op): State
    requires Allowed(s, op)
  {
    match op
    case Open => s.(held := s.held + [{}])
    case Get(i, bits) => GetBits(s, i, bits)
    case Free(i, bits) => FreeBits(s, i, bits)
    case Close(i) => CloseHandle(s, i)
  }

  // ---------------------------------------------------------------- each operation

  lemma {:induction false} GetKeeps(s: State, i: nat, bits: Bits)
    requires Exclusive(s) && i < |s.held|
    ensures Exclusive(GetBits(s, i, bits))
    ensures !Granted(s, i, bits) ==> GetBits(s, i, bits) == s
  {
    var t := GetBits(s, i, bits);
    if s.held[i] * bits == {} && s.taken * bits == {} {
      forall j, b ensures HeldBy(t, j, b) <==> HeldBy(s, j, b) || (j == i && b in bits) {
      }
      forall b | b in bits ensures HeldBy(t, i, b) && forall j :: !HeldBy(s, j, b) {
        assert b !in s.taken * bits;
      }
    }
  }

  lemma {:induction false} FreeKeeps(s: State, i: nat, bits: Bits)
    requires Exclusive(s) && i < |s.held| && bits <= s.held[i]
    ensures Exclusive(FreeBits(s, i, bits))
  {
    var t := FreeBits(s, i, bits);
    forall j: nat, b: nat ensures HeldBy(t, j, b) <==> HeldBy(s, j, b) && b !in bits {
      assert b in bits ==> HeldBy(s, i, b);
      assert b in bits && HeldBy(s, j, b) ==> j == i;
      assert j < |s.held| && j != i ==> t.held[j] == s.held[j];
    }
  }

  /** The check in res_free is exactly what keeps the record right: freeing taken bits works out if
      and only if the handle holds them all. */
  lemma {:induction false} FreeExactIff(s: State, i: nat, bits: Bits)
    requires Exclusive(s) && i < |s.held| && bits <= s.taken
    ensures Exclusive(FreeBits(s, i, bits)) <==> bits <= s.held[i]
  {
    if bits <= s.held[i] {
      FreeKeeps(s, i, bits);
    } else {
      var b :| b in bits && b !in s.held[i];
      var j: nat :| HeldBy(s, j, b);
      assert HeldBy(FreeBits(s, i, bits), j, b);
    }
  }

  /** Whoever is granted bits holds all of them afterwards, unless it held some but not all before;
      and what it holds no other handle has. */
  lemma {:induction false} GrantedMeansHeld(s: State, i: nat, bits: Bits)
    requires Exclusive(s) && i < |s.held| && Granted(s, i, bits)
    ensures var t := GetBits(s, i, bits);
            && (bits <= t.held[i] <==> s.held[i] * bits == {} || bits <= s.held[i])
            && forall j :: 0 <= j < |t.held| && j != i ==> t.held[j] !! t.held[i]
  {
    var t := GetBits(s, i, bits);
    GetKeeps(s, i, bits);
    forall j | 0 <= j < |t.held| && j != i ensures t.held[j] !! t.held[i] {
      forall b | b in t.held[j] ensures b !in t.held[i] {
        assert HeldBy(t, j, b);
        assert b in t.held[i] ==> HeldBy(t, i, b);
      }
    }
    if bits <= s.held[i] {
      assert s.held[i] * bits == bits;
    }
  }

  /** One bit is granted exactly if no other handle holds it; then the handle has it besides what it had,
      and nothing else changes. */
  lemma {:induction false} OneBitGrantedIff(s: State, i: nat, b: nat)
    requires Exclusive(s) && i < |s.held|
    ensures Granted(s, i, {b}) <==> forall j :: 0 <= j < |s.held| && j != i ==> b !in s.held[j]
    ensures Granted(s, i, {b}) ==> GetBits(s, i, {b}) == State(s.held[i := s.held[i] + {b}], s.taken + {b})
  {
    assert s.held[i] * {b} != {} <==> b in s.held[i] by {
      assert b in s.held[i] ==> b in s.held[i] * {b};
    }
    assert s.taken * {b} == {} <==> b !in s.taken by {
      assert b in s.taken ==> b in s.taken * {b};
    }
    if b in s.held[i] {
      assert HeldBy(s, i, b);
      assert s.held[i] + {b} == s.held[i] && s.held[i := s.held[i]] == s.held && s.taken + {b} == s.taken;
      forall j | 0 <= j < |s.held| && j != i ensures b !in s.held[j] {
        assert b in s.held[j] ==> HeldBy(s, j, b);
      }
    } else if b in s.taken {
      var j: nat :| HeldBy(s, j, b);
    } else {
      forall j | 0 <= j < |s.held| ensures b !in s.held[j] {
        assert b in s.held[j] ==> HeldBy(s, j, b);
      }
    }
  }

  /** After a release the handle is gone, what it held is free, and the other handles are as before. */
  lemma {:induction false} CloseFrees(s: State, i: nat)
    requires i < |s.held| && s.held[i] <= {VIDEO_BIT, VBI_BIT}
    ensures CloseHandle(s, i) == State(s.held[..i] + s.held[i + 1..], s.taken - s.held[i])
  {
    var r := ReleaseBit(s, i, VIDEO_BIT);
    var t := ReleaseBit(r, i, VBI_BIT);
    assert r.taken == s.taken - (s.held[i] * {VIDEO_BIT}) && t.taken == r.taken - (s.held[i] * {VBI_BIT});
    assert s.held[i] == s.held[i] * {VIDEO_BIT} + s.held[i] * {VBI_BIT};
  }

  /** A release in its steps. */
  lemma {:induction false} ReleaseSteps(s: State, i: nat)
    requires i < |s.held|
    ensures var r := ReleaseBit(s, i, VIDEO_BIT);
            var t := ReleaseBit(r, i, VBI_BIT);
            CloseHandle(s, i) == t.(held := t.held[..i] + t.held[i + 1..])
    ensures s.held[i] <= {VIDEO_BIT, VBI_BIT} ==> CloseHandle(s, i).taken == s.taken - s.held[i]
  {
    if s.held[i] <= {VIDEO_BIT, VBI_BIT} {
      CloseFrees(s, i);
    }
  }

  lemma {:induction false} OpenKeeps(s: State)
    requires Exclusive(s)
    ensures Exclusive(Apply(s, Open))
  {
    forall j, b ensures HeldBy(Apply(s, Open), j, b) <==> HeldBy(s, j, b) {
    }
  }

  lemma {:induction false} ReleaseKeeps(s: State, i: nat, bit: nat)
    requires Exclusive(s) && i < |s.held|
    ensures Exclusive(ReleaseBit(s, i, bit))
    ensures ReleaseBit(s, i, bit).held[i] == s.held[i] - {bit}
  {
    if bit in s.held[i] {
      FreeKeeps(s, i, {bit});
    }
  }

  lemma {:induction false} CloseKeeps(s: State, i: nat)
    requires Exclusive(s) && i < |s.held| && s.held[i] <= {VIDEO_BIT, VBI_BIT}
    ensures Exclusive(CloseHandle(s, i))
  {
    var r := ReleaseBit(s, i, VIDEO_BIT);
    ReleaseKeeps(s, i, VIDEO_BIT);
    ReleaseKeeps(r, i, VBI_BIT);
    var t := ReleaseBit(r, i, VBI_BIT);
    assert t.held[i] == {};
    RemoveEmpty(t, i, CloseHandle(s, i));
  }

  lemma {:induction false} RemoveEmpty(t: State, i: nat, u: State)
    requires Exclusive(t) && i < |t.held| && t.held[i] == {}
    requires u == t.(held := t.held[..i] + t.held[i + 1..])
    ensures Exclusive(u)
  {
    forall j: nat, b ensures HeldBy(u, j, b) <==> HeldBy(t, if j < i then j else j + 1, b) {
    }
    forall b | b in t.taken ensures exists j :: HeldBy(u, j, b) {
      var j: nat :| HeldBy(t, j, b);
      assert HeldBy(u, if j < i then j else j - 1, b);
    }
  }

  // ---------------------------------------------------------------- runs

  /** Nothing but video and vbi is ever taken. */
  ghost predicate Known(s: State) {
    forall i :: 0 <= i < |s.held| ==> s.held[i] <= {VIDEO_BIT, VBI_BIT}
  }

  lemma {:induction false} ApplyKeeps(s: State, op: Op)
    requires Exclusive(s) && Known(s) && Allowed(s, op)
    ensures Exclusive(Apply(s, op)) && Known(Apply(s, op))
  {
    hide Exclusive;
    match op
    case Open => OpenKeeps(s);
    case Get(i, bits) => GetKeeps(s, i, bits);
    case Free(i, bits) => FreeKeeps(s, i, bits);
    case Close(i) => CloseKeeps(s, i);
  }

  ghost predicate IsRun(ss: seq<State>, ops: seq<Op>) {
    && |ss| == |ops| + 1 && ss[0] == State([], {})
    && forall k :: 0 <= k < |ops| ==> Allowed(ss[k], ops[k]) && ss[k + 1] == Apply(ss[k], ops[k])
  }

  /** Over any number of handles and any sequence of operations the handles' resources stay
      disjoint and add up to the device's record. */
  lemma {:induction false} RunExclusive(ss: seq<State>, ops: seq<Op>, k: nat)
    requires IsRun(ss, ops) && k < |ss|
    ensures Exclusive(ss[k]) && Known(ss[k])
    decreases k
  {
    hide Apply, Allowed;
    if k > 0 {
      RunExclusive(ss, ops, k - 1);
      ApplyKeeps(ss[k - 1], ops[k - 1]);
    }
  }

  // ---------------------------------------------------------------- the driver's objects

  class Handle {
    var resources: Bits

    constructor ()
      ensures resources == {}
    {
      resources := {};
    }
  }

  class Device {
    var resources: Bits
    ghost var handles: seq<Handle>

    constructor ()
      ensures Valid() && Abs() == State([], {})
    {
      resources, handles := {}, [];
    }

    ghost predicate Valid()
      reads this
    {
      forall i, j :: 0 <= i < j < |handles| ==> handles[i] != handles[j]
    }

    ghost function Abs(): State
      reads this, handles
    {
      var hs := handles;
      State(seq(|hs|, i requires 0 <= i < |hs| reads hs => hs[i].resources), resources)
    }

    /** video_open. */
    method OpenHandle() returns (fh: Handle)
      requires Valid()
      modifies this`handles
      ensures Valid() && fresh(fh) && handles == old(handles) + [fh]
      ensures Abs() == Apply(old(Abs()), Open)
    {
      fh := new Handle();
      handles := handles + [fh];
      assert Abs().held == old(Abs().held) + [{}];
    }

    /** res_get. */
    method ResGet(fh: Handle, bits: Bits, ghost i: nat) returns (granted: bool)
      requires Valid() && i < |handles| && handles[i] == fh
      modifies this`resources, fh
      ensures Valid() && handles == old(handles)
      ensures granted == Granted(old(Abs()), i, bits) && Abs() == GetBits(old(Abs()), i, bits)
      ensures fh.resources
              == if granted && old(fh.resources) * bits == {} then old(fh.resources) + bits else old(fh.resources)
    {
      if fh.resources * bits != {} {
        return true;
      }
      if resources * bits != {} {
        return false;
      }
      fh.resources := fh.resources + bits;
      resources := resources + bits;
      assert Abs().held == old(Abs().held[i := Abs().held[i] + bits]);
      return true;
    }

    /** res_free; `bug` is the BUG_ON. */
    method ResFree(fh: Handle, bits: Bits, ghost i: nat) returns (bug: bool)
      requires Valid() && i < |handles| && handles[i] == fh
      modifies this`resources, fh
      ensures Valid() && handles == old(handles)
      ensures bug <==> !(bits <= old(fh.resources))
      ensures Abs() == if bug then old(Abs()) else FreeBits(old(Abs()), i, bits)
      ensures fh.resources == if bug then old(fh.resources) else old(fh.resources) - bits
    {
      if fh.resources * bits != bits {
        return true;
      }
      fh.resources := fh.resources - bits;
      resources := resources - bits;
      assert Abs().held == old(Abs().held[i := Abs().held[i] - bits]);
      return false;
    }

    /** The resources part of video_release; the checks there make a BUG impossible. */
    method Release(fh: Handle, ghost i: nat)
      requires Valid() && i < |handles| && handles[i] == fh
      modifies this, fh
      ensures Valid() && Abs() == CloseHandle(old(Abs()), i)
      ensures handles == old(handles[..i] + handles[i + 1..])
      ensures old(fh.resources) <= {VIDEO_BIT, VBI_BIT} ==>
                fh.resources == {} && resources == old(resources) - old(fh.resources)
    {
      hide FreeBits, CloseHandle;
      ReleaseSteps(Abs(), i);
      if VIDEO_BIT in fh.resources {
        var bug := ResFree(fh, {VIDEO_BIT}, i);
        assert !bug;
      }
      if VBI_BIT in fh.resources {
        var bug := ResFree(fh, {VBI_BIT}, i);
        assert !bug;
      }
      ghost var t := Abs();
      handles := handles[..i] + handles[i + 1..];
      assert Abs().held == t.held[..i] + t.held[i + 1..];
    }
  }
}
