/**
  Linux capabilities of a task, kept as what an administrator's identity has
  given up: capget, capset, the capability options of prctl, and what execve
  does to the sets.
 */
module Capabilities {

  /** A 64-bit mask as the set of its bits: & is intersection, | is union, & ~ is difference. */
  type mask = set<nat>

  const LAST_CAP := 40
  const SETPCAP := 8
  const FULL: mask := set b: nat | b <= 40

  /** The capability fields of a credential; a zeroed one holds the full set. */
  datatype Caps = Caps(effDrop: mask, prmDrop: mask, bndDrop: mask, inh: mask, amb: mask)

  const ZEROED := Caps({}, {}, {}, {}, {})

  function Bounding(c: Caps): mask { FULL - c.bndDrop }
  function Permitted(c: Caps, admin: bool): mask { if admin then FULL - c.prmDrop else {} }
  function Effective(c: Caps, admin: bool): mask { if admin then FULL - c.effDrop - c.prmDrop else {} }

  predicate Capable(c: Caps, admin: bool, cap: nat)
  {
    cap <= LAST_CAP && cap in Effective(c, admin)
  }

  // ---- the calls ---------------------------------------------------------------------------

  /** capset's rules: the new fields, or the old ones and a refusal. */
  function SetRules(c: Caps, admin: bool, ef: mask, pr: mask, inh: mask): (r: (Caps, bool))
  {
    var cur := Permitted(c, admin);
    var room := c.inh + if Capable(c, admin, SETPCAP) then cur else {};
    if pr - cur != {} || ef - pr != {} || inh - (c.inh + cur) != {} then (c, false)
    else if (inh - c.inh) - room != {} || (inh - c.inh) - Bounding(c) != {} then (c, false)
    else if !admin then (c, pr + ef + inh == {})
    else (Caps(FULL - ef, FULL - pr, c.bndDrop, inh * FULL, c.amb * (pr * inh)), true)
  }

  datatype Call =
    | Set(ef: mask, pr: mask, inh: mask)
    | DropBounding(cap: nat)
    | ClearAmbient
    | LowerAmbient(cap: nat)
    | RaiseAmbient(cap: nat)
    | Exec

  /** What a call leaves behind; a refused one leaves everything as it was. */
  function Apply(c: Caps, admin: bool, call: Call): Caps
  {
    match call
    case Set(ef, pr, inh) => SetRules(c, admin, ef, pr, inh).0
    case DropBounding(cap) =>
      if cap > LAST_CAP || !Capable(c, admin, SETPCAP) then c else c.(bndDrop := c.bndDrop + {cap})
    case ClearAmbient => c.(amb := {})
    case LowerAmbient(cap) => if cap > LAST_CAP then c else c.(amb := c.amb - {cap})
    case RaiseAmbient(cap) =>
      if cap > LAST_CAP || cap !in Permitted(c, admin) || cap !in c.inh then c
      else c.(amb := c.amb + {cap})
    case Exec =>
      if !admin then c
      else Caps({}, FULL - (c.inh + Bounding(c)) * FULL, c.bndDrop, c.inh, {})
  }

  function Run(c: Caps, admin: bool, calls: seq<Call>): Caps
    decreases |calls|
  {
    if calls == [] then c else Run(Apply(c, admin, calls[0]), admin, calls[1..])
  }

  // ---- what every run keeps -------------------------------------------------------------------

  predicate Inv(c: Caps, admin: bool)
  {
    c.inh <= FULL && c.prmDrop <= FULL && c.bndDrop <= FULL && c.amb <= Permitted(c, admin) * c.inh
  }

  lemma ApplyKeepsInv(c: Caps, admin: bool, call: Call)
    requires Inv(c, admin)
    ensures Inv(Apply(c, admin, call), admin)
  {
  }

  /** Everything a task could ever hold again. */
  function Ceiling(c: Caps, admin: bool): mask
  {
    Permitted(c, admin) + c.inh + Bounding(c)
  }

  lemma ApplyLowersCeiling(c: Caps, admin: bool, call: Call)
    requires Inv(c, admin)
    ensures Ceiling(Apply(c, admin, call), admin) <= Ceiling(c, admin)
    ensures Bounding(Apply(c, admin, call)) <= Bounding(c)
  {
  }

  /**
    Over every run, exec included: effective within permitted, ambient within
    permitted and inheritable, and nothing that has left the permitted, the
    inheritable and the bounding set ever comes back to any set.
   */
  lemma {:induction false} RunKeeps(c: Caps, admin: bool, calls: seq<Call>)
    requires Inv(c, admin)
    ensures var d := Run(c, admin, calls);
            && Inv(d, admin)
            && Effective(d, admin) <= Permitted(d, admin)
            && d.amb <= Permitted(d, admin) * d.inh
            && Ceiling(d, admin) <= Ceiling(c, admin)
            && Bounding(d) <= Bounding(c)
    decreases |calls|
  {
    hide Apply;
    if calls != [] {
      ApplyKeepsInv(c, admin, calls[0]);
      ApplyLowersCeiling(c, admin, calls[0]);
      RunKeeps(Apply(c, admin, calls[0]), admin, calls[1..]);
    }
  }

  /** Between execs permitted only shrinks, and inheritable grows only by bits capset's rules allow. */
  lemma CallShrinksPermitted(c: Caps, admin: bool, call: Call)
    requires Inv(c, admin) && !call.Exec?
    ensures var d := Apply(c, admin, call);
            && Permitted(d, admin) <= Permitted(c, admin)
            && d.inh - c.inh <= Permitted(c, admin) * Bounding(c)
            && (d.inh - c.inh != {} ==> Capable(c, admin, SETPCAP))
  {
    if call.Set? {
      SetShrinks(c, admin, call.ef, call.pr, call.inh);
    }
  }

  lemma SetShrinks(c: Caps, admin: bool, ef: mask, pr: mask, inh: mask)
    requires Inv(c, admin)
    ensures var d := SetRules(c, admin, ef, pr, inh).0;
            && Permitted(d, admin) <= Permitted(c, admin)
            && d.inh - c.inh <= Permitted(c, admin) * Bounding(c)
            && (d.inh - c.inh != {} ==> Capable(c, admin, SETPCAP))
  {
    var d := SetRules(c, admin, ef, pr, inh).0;
    if d != c {
      forall b | b in inh - c.inh
        ensures b in Permitted(c, admin) && b in Bounding(c) && Capable(c, admin, SETPCAP)
      {
        assert b !in (inh - c.inh) - Bounding(c);
        assert b !in inh - (c.inh + Permitted(c, admin));
        assert b !in (inh - c.inh) - (c.inh + if Capable(c, admin, SETPCAP) then Permitted(c, admin) else {});
      }
      forall b | b in pr
        ensures b in Permitted(c, admin)
      {
        assert b !in pr - Permitted(c, admin);
      }
      hide Capable;
    }
  }

  lemma {:induction false} RunShrinksPermitted(c: Caps, admin: bool, calls: seq<Call>)
    requires Inv(c, admin) && forall i :: 0 <= i < |calls| ==> !calls[i].Exec?
    ensures Permitted(Run(c, admin, calls), admin) <= Permitted(c, admin)
    decreases |calls|
  {
    hide Apply, Inv;
    if calls != [] {
      ApplyKeepsInv(c, admin, calls[0]);
      CallShrinksPermitted(c, admin, calls[0]);
      RunShrinksPermitted(Apply(c, admin, calls[0]), admin, calls[1..]);
    }
  }

  /** After exec an administrator holds, and has in effect, exactly what inheritable or bounding still holds. */
  lemma ExecGives(c: Caps)
    requires Inv(c, true)
    ensures View(Apply(c, true, Exec), true) == Sets(c.inh + Bounding(c), c.inh + Bounding(c), Bounding(c), c.inh, {})
  {
    var p := c.inh + Bounding(c);
    assert FULL - (FULL - p * FULL) == p;
    assert FULL - {} - (FULL - p * FULL) == p;
  }

  /** An administrator that has given nothing up holds 0 to 40; anybody else nothing. */
  lemma NothingGivenUp(b: nat)
    ensures b in Permitted(ZEROED, true) <==> b <= 40
    ensures View(ZEROED, true) == Sets(FULL, FULL, FULL, {}, {})
    ensures View(ZEROED, false) == Sets({}, {}, FULL, {}, {})
  {
  }

  /** What each prctl option does to the sets, and to which. */
  lemma OptionsGive(c: Caps, admin: bool, cap: nat)
    requires Inv(c, admin)
    ensures var v := View(c, admin);
            && View(Apply(c, admin, DropBounding(cap)), admin)
               == v.(bnd := v.bnd - if cap <= 40 && 8 in v.ef then {cap} else {})
            && View(Apply(c, admin, ClearAmbient), admin) == v.(amb := {})
            && View(Apply(c, admin, LowerAmbient(cap)), admin) == v.(amb := v.amb - {cap})
            && View(Apply(c, admin, RaiseAmbient(cap)), admin)
               == v.(amb := v.amb + if cap in v.pr && cap in v.inh then {cap} else {})
  {
    assert FULL - (c.bndDrop + {cap}) == Bounding(c) - {cap};
    assert cap > 40 ==> c.amb - {cap} == c.amb;
  }

  /** capset succeeds exactly when each set asked for is allowed, and then those are the sets. */
  lemma SetExact(c: Caps, ef: mask, pr: mask, inh: mask)
    requires Inv(c, true)
    ensures var r := SetRules(c, true, ef, pr, inh);
            && (r.1 <==> && ef <= pr && pr <= Permitted(c, true)
                         && (forall b :: b in inh && b !in c.inh ==>
                               b in Permitted(c, true) && b in Bounding(c) && SETPCAP in Effective(c, true)))
            && View(r.0, true) == if r.1 then Sets(ef, pr, Bounding(c), inh, c.amb * pr * inh) else View(c, true)
  {
    var r := SetRules(c, true, ef, pr, inh);
    SetAllowed(c, ef, pr, inh);
    if r.1 {
      assert FULL - (FULL - pr) == pr;
      assert FULL - (FULL - ef) - (FULL - pr) == ef;
      assert inh * FULL == inh;
      assert c.amb * (pr * inh) == c.amb * pr * inh;
    }
  }

  lemma NothingLeft(x: mask, y: mask)
    ensures x - y == {} <==> x <= y
  {
    if x - y == {} {
      forall b | b in x
        ensures b in y
      {
        assert b !in x - y;
      }
    }
  }

  lemma SetAllowed(c: Caps, ef: mask, pr: mask, inh: mask)
    requires Inv(c, true)
    ensures SetRules(c, true, ef, pr, inh).1 <==>
            && ef <= pr && pr <= Permitted(c, true)
            && (forall b :: b in inh && b !in c.inh ==>
                  b in Permitted(c, true) && b in Bounding(c) && SETPCAP in Effective(c, true))
    ensures SetRules(c, true, ef, pr, inh).1 ==> inh <= FULL
  {
    var cur, new_ := Permitted(c, true), inh - c.inh;
    NothingLeft(pr, cur);
    NothingLeft(ef, pr);
    if SetRules(c, true, ef, pr, inh).1 {
      forall b | b in inh && b !in c.inh
        ensures b in cur && b in Bounding(c) && SETPCAP in Effective(c, true)
      {
        assert b !in new_ - Bounding(c) && b !in inh - (c.inh + cur);
        assert b !in new_ - (c.inh + if Capable(c, true, SETPCAP) then cur else {});
      }
    }
  }

  // ---- the two calls together ------------------------------------------------------------------

  /** The observable sets. */
  datatype Sets = Sets(ef: mask, pr: mask, bnd: mask, inh: mask, amb: mask)

  function View(c: Caps, admin: bool): Sets
  {
    Sets(Effective(c, admin), Permitted(c, admin), Bounding(c), c.inh, c.amb)
  }

  /** The one or two 32-bit words a header version transfers, low word first. */
  function Sent(x: mask, words: nat): (q: seq<mask>)
    requires words == 1 || words == 2
    ensures |q| == words
  {
    var low := set b | b in x && b < 32;
    if words == 1 then [low] else [low, set b | b in x && 32 <= b < 64 :: b - 32]
  }

  function Received(q: seq<mask>): mask
    requires |q| == 1 || |q| == 2
  {
    if |q| == 1 then q[0] else q[0] + set b | b in q[1] && b < 32 :: b + 32
  }

  /** Capability `b` is bit `b % 32` of word `b / 32`, sent and received. */
  lemma PlaceOfBit(x: mask, q: seq<mask>, b: nat)
    requires b < 64 && |q| == 2 && forall j :: j in q[0] ==> j < 32
    ensures b in x <==> b % 32 in Sent(x, 2)[b / 32]
    ensures b in Received(q) <==> b % 32 in q[b / 32]
  {
    if b >= 32 {
      assert b / 32 == 1 && b % 32 == b - 32;
      assert b in x ==> b - 32 in Sent(x, 2)[1];
      assert b - 32 in q[1] ==> (b - 32) + 32 in Received(q);
    }
  }

  const LOW: mask := set b: nat | b < 32
  const ALL: mask := set b: nat | b < 64

  lemma TransferTwo(x: mask)
    ensures Received(Sent(x, 2)) == x * ALL
  {
    var high := Sent(x, 2)[1];
    forall b: nat | 32 <= b < 64
      ensures b in x <==> b in Received(Sent(x, 2))
    {
      assert b in x <==> b - 32 in high;
      assert (b - 32) + 32 == b;
    }
  }

  lemma TransferOne(x: mask)
    ensures Received(Sent(x, 1)) == x * LOW
  {
  }

  /** capset of what capget returned. */
  function SetWhatGot(c: Caps, admin: bool, words: nat): (Caps, bool)
    requires words == 1 || words == 2
  {
    SetRules(c, admin, Received(Sent(Effective(c, admin), words)), Received(Sent(Permitted(c, admin), words)),
           Received(Sent(c.inh, words)))
  }

  lemma SetPartOfHeld(c: Caps, m: mask)
    requires Inv(c, true)
    ensures var r := SetRules(c, true, Effective(c, true) * m, Permitted(c, true) * m, c.inh * m);
            r.1 && View(r.0, true)
                   == Sets(Effective(c, true) * m, Permitted(c, true) * m, Bounding(c), c.inh * m, c.amb * m)
  {
  }

  /** Under a two-word header, setting what was read succeeds and changes no set. */
  lemma SetWhatGotKeeps(c: Caps)
    requires Inv(c, true)
    ensures SetWhatGot(c, true, 2).1 && View(SetWhatGot(c, true, 2).0, true) == View(c, true)
  {
    hide SetRules, Sent, Received;
    TransferTwo(Effective(c, true));
    TransferTwo(Permitted(c, true));
    TransferTwo(c.inh);
    SetPartOfHeld(c, ALL);
  }

  /** Under a one-word header it succeeds too, but changes no set exactly when no capability above 31 is held. */
  lemma OneWordKeepsIff(c: Caps)
    requires Inv(c, true)
    ensures SetWhatGot(c, true, 1).1
    ensures View(SetWhatGot(c, true, 1).0, true) == View(c, true) <==> Permitted(c, true) + c.inh <= LOW
  {
    hide SetRules, Sent, Received;
    TransferOne(Effective(c, true));
    TransferOne(Permitted(c, true));
    TransferOne(c.inh);
    SetPartOfHeld(c, LOW);
  }

  /** An administrator that never gave anything up loses capabilities 32 to 40 by it. */
  lemma OneWordLoses()
    ensures Inv(ZEROED, true)
    ensures var d := SetWhatGot(ZEROED, true, 1).0;
            View(d, true) != View(ZEROED, true) && Permitted(ZEROED, true) - Permitted(d, true) == FULL - LOW
  {
    hide SetRules, Sent, Received;
    OneWordKeepsIff(ZEROED);
    TransferOne(Effective(ZEROED, true));
    TransferOne(Permitted(ZEROED, true));
    TransferOne(ZEROED.inh);
    SetPartOfHeld(ZEROED, LOW);
    assert 32 in Permitted(ZEROED, true) && 32 !in LOW;
  }

  // ---- the handlers ---------------------------------------------------------------------------

  const EPERM := 1
  const ESRCH := 3
  const EFAULT := 14
  const EINVAL := 22
  const V1 := 0x19980330
  const V2 := 0x20071026
  const V3 := 0x20080522

  function WordsOf(version: int): (words: nat)
    ensures words == 0 || words == 1 || words == 2
    ensures words == 1 <==> version == 0x19980330
    ensures words == 2 <==> version == 0x20071026 || version == 0x20080522
  {
    if version == V1 then 1 else if version == V2 || version == V3 then 2 else 0
  }

  /** The three sets of one transferred word. */
  datatype Triple = Triple(ef: mask, pr: mask, inh: mask)

  function EfWords(data: seq<Triple>): seq<mask> { seq(|data|, i requires 0 <= i < |data| => data[i].ef) }
  function PrWords(data: seq<Triple>): seq<mask> { seq(|data|, i requires 0 <= i < |data| => data[i].pr) }
  function InhWords(data: seq<Triple>): seq<mask> { seq(|data|, i requires 0 <= i < |data| => data[i].inh) }

  class Cred {
    const admin: bool
    var effDrop: mask
    var prmDrop: mask
    var bndDrop: mask
    var inh: mask
    var amb: mask

    constructor (admin: bool)
      ensures this.admin == admin && Held() == ZEROED
    {
      this.admin := admin;
      effDrop, prmDrop, bndDrop, inh, amb := {}, {}, {}, {}, {};
    }

    function Held(): Caps
      reads this
    {
      Caps(effDrop, prmDrop, bndDrop, inh, amb)
    }

    /**
      capget.  The caller's mappings and the process table are asked through
      parameters: whether the header and the data can be accessed, and the
      credential of the process `pid` names, if there is one.
     */
    method CapGet(mapped: bool, version: int, pid: int, found: Cred?, wantsData: bool, writable: bool)
      returns (rc: int, answered: int, data: seq<Triple>)
      ensures answered == if mapped && WordsOf(version) == 0 then V3 else version
      ensures rc == if !mapped then -EFAULT
                    else if WordsOf(version) == 0 then if wantsData then -EINVAL else 0
                    else if pid > 0 && found == null then -ESRCH
                    else if wantsData && !writable then -EFAULT else 0
      ensures |data| == if rc == 0 && wantsData then WordsOf(version) else 0
      ensures var who := if pid > 0 && found != null then found else this;
              forall i :: 0 <= i < |data| ==>
                data[i] == Triple(Sent(Effective(who.Held(), who.admin), |data|)[i],
                                  Sent(Permitted(who.Held(), who.admin), |data|)[i],
                                  Sent(who.inh, |data|)[i])
    {
      hide Sent, Effective, Permitted;
      data := [];
      if !mapped {
        return -EFAULT, version, [];
      }
      var words := WordsOf(version);
      if words == 0 {
        return if wantsData then -EINVAL else 0, V3, [];
      }
      var who := this;
      if pid > 0 {
        if found == null {
          return -ESRCH, version, [];
        }
        who := found;
      }
      if !wantsData {
        return 0, version, [];
      }
      if !writable {
        return -EFAULT, version, [];
      }
      var ef := Sent(Effective(who.Held(), who.admin), words);
      var pr := Sent(Permitted(who.Held(), who.admin), words);
      var hn := Sent(who.inh, words);
      for i := 0 to words
        invariant |data| == i
        invariant forall j :: 0 <= j < i ==> data[j] == Triple(ef[j], pr[j], hn[j])
      {
        data := data + [Triple(ef[i], pr[i], hn[i])];
      }
      return 0, version, data;
    }

    /** capset: `resolved` is the process `pid` names and `self` the caller; only the caller's sets can be set. */
    method CapSet(mapped: bool, version: int, pid: int, resolved: int, self: int, readable: bool, data: seq<Triple>)
      returns (rc: int, answered: int)
      requires |data| == WordsOf(version)
      modifies this
      ensures answered == if mapped && WordsOf(version) == 0 then V3 else version
      ensures !mapped ==> rc == -EFAULT
      ensures mapped && WordsOf(version) == 0 ==> rc == -EINVAL
      ensures mapped && WordsOf(version) != 0 && pid != 0 && resolved != self ==> rc == -EPERM
      ensures mapped && WordsOf(version) != 0 && (pid == 0 || resolved == self) && !readable ==> rc == -EFAULT
      ensures if mapped && WordsOf(version) != 0 && (pid == 0 || resolved == self) && readable then
                var r := SetRules(old(Held()), admin, Received(EfWords(data)), Received(PrWords(data)), Received(InhWords(data)));
                Held() == r.0 && rc == if r.1 then 0 else -EPERM
              else Held() == old(Held())
    {
      answered := version;
      if !mapped {
        return -EFAULT, version;
      }
      if WordsOf(version) == 0 {
        return -EINVAL, V3;
      }
      if pid != 0 && resolved != self {
        return -EPERM, version;
      }
      if !readable {
        return -EFAULT, version;
      }
      var ef := Received(EfWords(data));
      var pr := Received(PrWords(data));
      var hn := Received(InhWords(data));
      hide Received;
      var cur := Permitted(Held(), admin);
      if pr - cur != {} {
        return -EPERM, version;
      }
      if ef - pr != {} {
        return -EPERM, version;
      }
      var room := inh + if Capable(Held(), admin, SETPCAP) then cur else {};
      if hn - (inh + cur) != {} {
        return -EPERM, version;
      }
      if (hn - inh) - room != {} {
        return -EPERM, version;
      }
      if (hn - inh) - Bounding(Held()) != {} {
        return -EPERM, version;
      }
      if !admin {
        return if pr + ef + hn != {} then -EPERM else 0, version;
      }
      prmDrop := FULL - pr;
      effDrop := FULL - ef;
      inh := hn * FULL;
      amb := amb * (pr * hn);
      return 0, version;
    }

    /** PR_CAPBSET_READ (23), PR_CAPBSET_DROP (24) and PR_CAP_AMBIENT (47). */
    method Prctl(opt: int, a1: nat, a2: nat) returns (rc: int)
      requires opt == 23 || opt == 24 || opt == 47
      modifies this
      ensures opt == 23 ==>
                Held() == old(Held()) && rc == if a1 > LAST_CAP then -EINVAL else if a1 in Bounding(Held()) then 1 else 0
      ensures opt == 24 ==> Held() == Apply(old(Held()), admin, DropBounding(a1))
      ensures opt == 24 ==>
                rc == if a1 > LAST_CAP then -EINVAL else if Capable(old(Held()), admin, SETPCAP) then 0 else -EPERM
      ensures opt == 47 && a1 == 4 ==> Held() == Apply(old(Held()), admin, ClearAmbient) && rc == 0
      ensures opt == 47 && a1 == 3 ==> Held() == Apply(old(Held()), admin, LowerAmbient(a2))
      ensures opt == 47 && a1 == 3 ==> rc == if a2 > LAST_CAP then -EINVAL else 0
      ensures opt == 47 && a1 == 2 ==> Held() == Apply(old(Held()), admin, RaiseAmbient(a2))
      ensures opt == 47 && a1 == 2 ==>
                rc == if a2 > LAST_CAP then -EINVAL
                      else if a2 in old(Permitted(Held(), admin)) && a2 in old(inh) then 0 else -EPERM
      ensures opt == 47 && a1 == 1 ==>
                Held() == old(Held()) && rc == if a2 > LAST_CAP then -EINVAL else if a2 in amb then 1 else 0
      ensures opt == 47 && (a1 < 1 || a1 > 4) ==> Held() == old(Held()) && rc == -EINVAL
    {
      if opt == 23 {
        if a1 > LAST_CAP {
          return -EINVAL;
        }
        return if a1 in Bounding(Held()) then 1 else 0;
      }
      if opt == 24 {
        if a1 > LAST_CAP {
          return -EINVAL;
        }
        if !Capable(Held(), admin, SETPCAP) {
          return -EPERM;
        }
        bndDrop := bndDrop + {a1};
        return 0;
      }
      if a1 == 4 {
        amb := {};
        return 0;
      }
      if a2 > LAST_CAP {
        return -EINVAL;
      }
      if a1 == 1 {
        return if a2 in amb then 1 else 0;
      }
      if a1 == 3 {
        amb := amb - {a2};
        return 0;
      }
      if a1 == 2 {
        if a2 !in Permitted(Held(), admin) || a2 !in inh {
          return -EPERM;
        }
        amb := amb + {a2};
        return 0;
      }
      return -EINVAL;
    }

    /** What execve does to the sets. */
    method ExecCaps()
      modifies this
      ensures Held() == Apply(old(Held()), admin, Exec)
    {
      if !admin {
        return;
      }
      var p := (inh + Bounding(Held())) * FULL;
      prmDrop := FULL - p;
      effDrop := {};
      amb := {};
    }
  }
}
