/** The token-bucket policer of deps/vigor/vigpol/policer_main.c.

    The map, the vectors and the expiring allocator of its table appear as one finite map from
    destinations to buckets; an entry's last use is its bucket time. */
module Policer {
  import opened Arithmetic

  /** Tokens are bytes, times are nanoseconds. */
  const M: nat := 1_000_000_000

  datatype Config = Config(rate: nat, burst: nat, capacity: nat)

  datatype Bucket = Bucket(size: int, time: int)

  datatype Device = Lan | Wan | Other

  datatype Packet = Packet(device: Device, dst: nat, size: nat, time: int)

  type Table = map<nat, Bucket>

  ghost predicate ConfigOk(cfg: Config) {
    cfg.rate > 0 && cfg.burst > 0
  }

  /** The time in which an empty bucket fills up. */
  function FillTime(cfg: Config): nat
    requires cfg.rate > 0
  {
    M * cfg.burst / cfg.rate
  }

  function AddedTokens(cfg: Config, diff: nat): nat {
    Times(diff, cfg.rate) / M
  }

  /** Between packets a bucket never holds more than a burst, and its time is in the past. */
  ghost predicate BucketOk(cfg: Config, b: Bucket, now: int) {
    0 <= b.size <= cfg.burst && b.time <= now
  }

  ghost predicate TableOk(cfg: Config, t: Table, now: int) {
    |t| <= cfg.capacity && forall d {:trigger t[d]} :: d in t ==> BucketOk(cfg, t[d], now)
  }

  // ---- One packet

  function Expired(cfg: Config, t: Table, now: int): Table
    requires cfg.rate > 0
  {
    map d | d in t && t[d].time >= now - FillTime(cfg) :: t[d]
  }

  /** The time since the last use of the bucket, which is never in the future. */
  function Elapsed(b: Bucket, now: int): nat {
    if b.time <= now then now - b.time else 0
  }

  /** The bucket's tokens after the time since its last use. */
  function Refilled(cfg: Config, b: Bucket, now: int): int
    requires cfg.rate > 0
  {
    var diff := Elapsed(b, now);
    if diff < FillTime(cfg) then
      var size := b.size + AddedTokens(cfg, diff);
      if size > cfg.burst then cfg.burst else size
    else cfg.burst
  }

  /** `policer_check_tb`: the new table and whether the packet is forwarded. */
  function Checked(cfg: Config, t: Table, dst: nat, size: nat, now: int): (Table, bool)
    requires cfg.rate > 0
  {
    if dst in t then
      var tokens := Refilled(cfg, t[dst], now);
      if tokens > size then (t[dst := Bucket(tokens - size, now)], true)
      else (t[dst := Bucket(tokens, now)], false)
    else if size > cfg.burst || |t| >= cfg.capacity then (t, false)
    else (t[dst := Bucket(cfg.burst - size, now)], true)
  }

  /** What deps/vigor/vigpol/spec.py demands: a new destination's packet is forwarded whenever there is room
      for its bucket, whatever the packet's size. */
  function Specified(cfg: Config, t: Table, dst: nat, size: nat, now: int): (Table, bool)
    requires cfg.rate > 0
  {
    if dst in t then
      var filled := t[dst].size + AddedTokens(cfg, Elapsed(t[dst], now));
      var tokens := if Elapsed(t[dst], now) < FillTime(cfg) && filled <= cfg.burst then filled else cfg.burst;
      var fwd := size < tokens;
      (t[dst := Bucket(if fwd then tokens - size else tokens, now)], fwd)
    else if |t| < cfg.capacity then (t[dst := Bucket(cfg.burst - size, now)], true)
    else (t, false)
  }

  /** The code departs from it exactly for a packet that is larger than a burst, to a new destination, while
      there is room: it drops the packet and leaves the table alone, instead of overdrawing a new bucket. */
  lemma DepartsFromSpecification(cfg: Config, t: Table, dst: nat, size: nat, now: int)
    requires cfg.rate > 0
    ensures Checked(cfg, t, dst, size, now) == Specified(cfg, t, dst, size, now)
            <==> (dst in t || size <= cfg.burst || |t| >= cfg.capacity)
    ensures dst !in t && size > cfg.burst && |t| < cfg.capacity ==>
              && Checked(cfg, t, dst, size, now) == (t, false)
              && Specified(cfg, t, dst, size, now).1 && Specified(cfg, t, dst, size, now).0[dst].size < 0
  {
  }

  /** `nf_process` for a well-formed packet: where it goes is given by the device. */
  function Processed(cfg: Config, t: Table, p: Packet): (Table, Device)
    requires cfg.rate > 0
  {
    var e := Expired(cfg, t, p.time);
    match p.device
    case Lan => (e, Wan)
    case Wan =>
      var (t', fwd) := Checked(cfg, e, p.dst, p.size, p.time);
      (t', if fwd then Lan else Wan)
    case Other => (e, Other)
  }

  /** The policer's state is updated in place. */
  class PolicerTable {
    const cfg: Config
    var entries: Table

    constructor (cfg: Config)
      ensures this.cfg == cfg && entries == map[]
    {
      this.cfg := cfg;
      entries := map[];
    }

    /** `policer_expire_entries`. */
    method ExpireEntries(time: int)
      requires ConfigOk(cfg)
      modifies this`entries
      ensures entries == Expired(cfg, old(entries), time)
    {
      var minTime := time - M * cfg.burst / cfg.rate;
      entries := map d | d in entries && entries[d].time >= minTime :: entries[d];
    }

    /** `policer_check_tb`; the assertions of the source hold. */
    method CheckTb(dst: nat, size: nat, time: int) returns (fwd: bool)
      requires ConfigOk(cfg) && TableOk(cfg, entries, time)
      modifies this`entries
      ensures (entries, fwd) == Checked(cfg, old(entries), dst, size, time)
      ensures TableOk(cfg, entries, time)
    {
      ghost var t := entries;
      CheckKeepsTable(cfg, t, dst, size, time);
      if dst in entries {
        var value := entries[dst];
        assert BucketOk(cfg, value, time);
        var timeDiff := time - value.time;
        TimesValue(timeDiff, cfg.rate);
        if timeDiff < cfg.burst * M / cfg.rate {
          var addedTokens := timeDiff * cfg.rate / M;
          value := value.(size := value.size + addedTokens);
          if value.size > cfg.burst {
            value := value.(size := cfg.burst);
          }
        } else {
          value := value.(size := cfg.burst);
        }
        value := value.(time := time);
        fwd := false;
        if value.size > size {
          value := value.(size := value.size - size);
          fwd := true;
        }
        entries := entries[dst := value];
      } else {
        if size > cfg.burst {
          return false;
        }
        if |entries| >= cfg.capacity {
          return false;
        }
        entries := entries[dst := Bucket(cfg.burst - size, time)];
        fwd := true;
      }
    }

    /** `nf_process` for a well-formed packet; the result is the device it is sent to. */
    method Process(p: Packet) returns (device: Device)
      requires ConfigOk(cfg) && TableOk(cfg, entries, p.time)
      modifies this`entries
      ensures (entries, device) == Processed(cfg, old(entries), p)
      ensures TableOk(cfg, entries, p.time)
      ensures p.device.Lan? ==> device == Wan
      ensures p.device.Wan? ==> device == Lan || device == Wan
      ensures p.device.Other? ==> device == Other
      ensures (p.device.Wan? && HasRoom(cfg, old(entries), p.dst, p.time) &&
               Credit(cfg, old(entries), p.dst, p.time) >= M * (p.size + 1)) ==> device == Lan
    {
      ghost var t := entries;
      EnoughCreditIsForwarded(cfg, t, p);
      ExpiryKeepsTable(cfg, entries, p.time);
      ExpireEntries(p.time);
      match p.device
      case Lan =>
        return Wan;
      case Wan =>
        var fwd := CheckTb(p.dst, p.size, p.time);
        return if fwd then Lan else Wan;
      case Other =>
        return Other;
    }
  }

  // ---- Buckets stay within bounds

  lemma ExpiryKeepsTable(cfg: Config, t: Table, now: int)
    requires ConfigOk(cfg) && TableOk(cfg, t, now)
    ensures TableOk(cfg, Expired(cfg, t, now), now)
  {
    var e := Expired(cfg, t, now);
    assert e.Keys <= t.Keys;
    KeysBound(e.Keys, t.Keys);
    assert |e.Keys| == |e| && |t.Keys| == |t|;
  }

  lemma KeysBound(a: set<nat>, b: set<nat>)
    requires a <= b
    ensures |a| <= |b|
  {
    assert b == a + (b - a);
  }

  lemma RefilledInRange(cfg: Config, b: Bucket, now: int)
    requires ConfigOk(cfg) && BucketOk(cfg, b, now)
    ensures b.size <= Refilled(cfg, b, now) <= cfg.burst
  {
  }

  lemma CheckKeepsTable(cfg: Config, t: Table, dst: nat, size: nat, now: int)
    requires ConfigOk(cfg) && TableOk(cfg, t, now)
    ensures TableOk(cfg, Checked(cfg, t, dst, size, now).0, now)
  {
    if dst in t {
      assert BucketOk(cfg, t[dst], now);
      RefilledInRange(cfg, t[dst], now);
      var tokens := Refilled(cfg, t[dst], now);
      UpdateKeepsTable(cfg, t, dst, Bucket(if tokens > size then tokens - size else tokens, now), now);
    } else if size <= cfg.burst && |t| < cfg.capacity {
      UpdateKeepsTable(cfg, t, dst, Bucket(cfg.burst - size, now), now);
    }
  }

  lemma UpdateKeepsTable(cfg: Config, t: Table, dst: nat, b: Bucket, now: int)
    requires TableOk(cfg, t, now) && BucketOk(cfg, b, now) && (dst in t || |t| < cfg.capacity)
    ensures TableOk(cfg, t[dst := b], now)
  {
    if dst in t {
      assert t[dst := b].Keys == t.Keys;
    } else {
      assert t[dst := b].Keys == t.Keys + {dst};
    }
    assert |t[dst := b].Keys| == |t[dst := b]| && |t.Keys| == |t|;
  }

  // ---- The rate bound

  /** What may still be forwarded to `d` at time `now`, times `M`: the tokens in its bucket and those
      that have been earned since its last use, at most a burst.  An absent bucket is a full one. */
  function Credit(cfg: Config, t: Table, d: nat, now: int): int {
    if d !in t then M * cfg.burst
    else Least(M * cfg.burst, M * t[d].size + Times(Elapsed(t[d], now), cfg.rate))
  }

  function Least(x: int, y: int): int { if x <= y then x else y }

  /** The bytes that a packet brings to destination `d`. */
  function Forwarded(cfg: Config, t: Table, p: Packet, d: nat): nat
    requires cfg.rate > 0
  {
    if p.device.Wan? && p.dst == d && Processed(cfg, t, p).1.Lan? then p.size else 0
  }

  /** The packet fills the bucket of `d` because it was not used for long. */
  function FullRefill(cfg: Config, t: Table, p: Packet, d: nat): nat
    requires cfg.rate > 0
  {
    var e := Expired(cfg, t, p.time);
    if p.device.Wan? && p.dst == d && d in e && Elapsed(e[d], p.time) >= FillTime(cfg) then 1 else 0
  }

  /** What the rounding of the fill time gives away at a full refill. */
  function Slack(cfg: Config): int
    requires cfg.rate > 0
  {
    M * cfg.burst - Times(FillTime(cfg), cfg.rate)
  }

  lemma SlackIsRemainder(cfg: Config)
    requires cfg.rate > 0
    ensures Slack(cfg) == M * cfg.burst % cfg.rate
    ensures 0 <= Slack(cfg) < cfg.rate
  {
    TimesValue(FillTime(cfg), cfg.rate);
  }

  /** Credit grows no faster than the rate. */
  lemma CreditGrows(cfg: Config, t: Table, d: nat, from: int, to: int)
    requires from <= to && (d in t ==> t[d].time <= from)
    ensures Credit(cfg, t, d, to) <= Credit(cfg, t, d, from) + Times(to - from, cfg.rate)
  {
    if d in t {
      TimesSum(from - t[d].time, to - from, cfg.rate);
    }
  }

  /** An entry that expires has earned a full bucket. */
  lemma ExpiryIsEarned(cfg: Config, t: Table, d: nat, now: int)
    requires ConfigOk(cfg) && TableOk(cfg, t, now)
    ensures Credit(cfg, Expired(cfg, t, now), d, now) == Credit(cfg, t, d, now)
  {
    if d in t && d !in Expired(cfg, t, now) {
      assert BucketOk(cfg, t[d], now);
      LongIdleIsFull(cfg, now - t[d].time);
    }
  }

  lemma LongIdleIsFull(cfg: Config, diff: nat)
    requires cfg.rate > 0 && diff >= FillTime(cfg)
    ensures Times(diff, cfg.rate) >= M * cfg.burst - Slack(cfg)
    ensures diff > FillTime(cfg) ==> Times(diff, cfg.rate) >= M * cfg.burst
  {
    SlackIsRemainder(cfg);
    TimesSum(FillTime(cfg), diff - FillTime(cfg), cfg.rate);
  }

  /** The refill of a bucket that is used again turns credit into tokens. */
  lemma RefillIsEarned(cfg: Config, b: Bucket, now: int)
    requires ConfigOk(cfg) && BucketOk(cfg, b, now)
    ensures M * Refilled(cfg, b, now) <=
            Least(M * cfg.burst, M * b.size + Times(Elapsed(b, now), cfg.rate))
            + if Elapsed(b, now) >= FillTime(cfg) then Slack(cfg) else 0
  {
    var diff := Elapsed(b, now);
    SlackIsRemainder(cfg);
    if diff >= FillTime(cfg) {
      LongIdleIsFull(cfg, diff);
    }
  }

  /** One packet: what it forwards is paid for by credit, up to the rounding of a full refill. */
  lemma CheckPays(cfg: Config, t: Table, dst: nat, size: nat, d: nat, now: int)
    requires ConfigOk(cfg) && TableOk(cfg, t, now)
    ensures var (t', fwd) := Checked(cfg, t, dst, size, now);
            M * (if fwd && dst == d then size else 0) + Credit(cfg, t', d, now) <=
            Credit(cfg, t, d, now)
            + if dst == d && d in t && Elapsed(t[d], now) >= FillTime(cfg) then Slack(cfg) else 0
  {
    if dst == d {
      if d in t {
        assert BucketOk(cfg, t[d], now);
        RefillIsEarned(cfg, t[d], now);
        RefilledInRange(cfg, t[d], now);
      }
    }
  }

  lemma PacketPays(cfg: Config, t: Table, p: Packet, d: nat)
    requires ConfigOk(cfg) && TableOk(cfg, t, p.time)
    ensures TableOk(cfg, Processed(cfg, t, p).0, p.time)
    ensures M * Forwarded(cfg, t, p, d) + Credit(cfg, Processed(cfg, t, p).0, d, p.time) <=
            Credit(cfg, t, d, p.time) + if FullRefill(cfg, t, p, d) == 1 then Slack(cfg) else 0
  {
    var e := Expired(cfg, t, p.time);
    ExpiryKeepsTable(cfg, t, p.time);
    ExpiryIsEarned(cfg, t, d, p.time);
    SlackIsRemainder(cfg);
    if p.device.Wan? {
      CheckKeepsTable(cfg, e, p.dst, p.size, p.time);
      CheckPays(cfg, e, p.dst, p.size, d, p.time);
    }
  }

  // ---- What is forwarded

  /** The destination has a bucket, or there is room for one, at the latest after entries that have not been
      used for longer than the fill time are gone. */
  ghost predicate HasRoom(cfg: Config, t: Table, d: nat, now: int)
    requires cfg.rate > 0
  {
    || d in t || |t| < cfg.capacity
    || exists x :: x in t && t[x].time < now - M * cfg.burst / cfg.rate
  }

  lemma RoomAfterExpiry(cfg: Config, t: Table, d: nat, now: int)
    requires ConfigOk(cfg) && TableOk(cfg, t, now) && HasRoom(cfg, t, d, now)
    ensures d in Expired(cfg, t, now) || |Expired(cfg, t, now)| < cfg.capacity
  {
    var e := Expired(cfg, t, now);
    assert |e.Keys| == |e| && |t.Keys| == |t|;
    KeysBound(e.Keys, t.Keys);
    if x :| x in t && x !in e {
      KeysBound(e.Keys + {x}, t.Keys);
    }
  }

  /** No more than a fraction of a token is lost when a bucket is refilled. */
  lemma RefillLosesNoToken(cfg: Config, b: Bucket, now: int)
    requires ConfigOk(cfg) && BucketOk(cfg, b, now)
    ensures M * Refilled(cfg, b, now) > Least(M * cfg.burst, M * b.size + Times(Elapsed(b, now), cfg.rate)) - M
  {
  }

  /** Credit pays for what is forwarded, and less than one token is lost; other destinations keep theirs. */
  lemma CheckKeepsCredit(cfg: Config, t: Table, dst: nat, size: nat, d: nat, now: int)
    requires ConfigOk(cfg) && TableOk(cfg, t, now)
    ensures var (t', fwd) := Checked(cfg, t, dst, size, now);
            && (dst != d ==> Credit(cfg, t', d, now) == Credit(cfg, t, d, now))
            && (dst == d ==> M * (if fwd then size else 0) + Credit(cfg, t', d, now) > Credit(cfg, t, d, now) - M)
  {
    if dst == d && d in t {
      assert BucketOk(cfg, t[d], now);
      RefillLosesNoToken(cfg, t[d], now);
      RefilledInRange(cfg, t[d], now);
    }
  }

  /** One packet costs its destination what it forwards and less than one token more, and costs no other
      destination anything. */
  lemma PacketKeepsCredit(cfg: Config, t: Table, p: Packet, d: nat)
    requires ConfigOk(cfg) && TableOk(cfg, t, p.time)
    ensures var now := Credit(cfg, Processed(cfg, t, p).0, d, p.time);
            && M * Forwarded(cfg, t, p, d) + now > Credit(cfg, t, d, p.time) - M
            && (!p.device.Wan? || p.dst != d ==> now == Credit(cfg, t, d, p.time))
  {
    ExpiryKeepsTable(cfg, t, p.time);
    ExpiryIsEarned(cfg, t, d, p.time);
    if p.device.Wan? {
      CheckKeepsCredit(cfg, Expired(cfg, t, p.time), p.dst, p.size, d, p.time);
    }
  }

  /** A packet whose destination has credit for it and one byte more is forwarded, if there is room. */
  lemma EnoughCreditIsForwarded(cfg: Config, t: Table, p: Packet)
    requires ConfigOk(cfg) && TableOk(cfg, t, p.time)
    ensures (p.device.Wan? && HasRoom(cfg, t, p.dst, p.time) && Credit(cfg, t, p.dst, p.time) >= M * (p.size + 1)) ==>
              Processed(cfg, t, p).1 == Lan
  {
    if p.device.Wan? && HasRoom(cfg, t, p.dst, p.time) && Credit(cfg, t, p.dst, p.time) >= M * (p.size + 1) {
      var e := Expired(cfg, t, p.time);
      ExpiryKeepsTable(cfg, t, p.time);
      ExpiryIsEarned(cfg, t, p.dst, p.time);
      RoomAfterExpiry(cfg, t, p.dst, p.time);
      if p.dst in e {
        assert BucketOk(cfg, e[p.dst], p.time);
        RefillLosesNoToken(cfg, e[p.dst], p.time);
      }
    }
  }

  // ---- Runs

  /** Time does not go back from `from` over the packets up to `to`. */
  predicate Within(ps: seq<Packet>, from: int, to: int) {
    from <= to && (ps != [] ==> from <= ps[0].time && Within(ps[1..], ps[0].time, to))
  }

  /** The table together with the bytes forwarded to destination `d` and the full refills of its bucket
      so far. */
  datatype Ledger = Ledger(table: Table, bytes: nat, refills: nat)

  function After(cfg: Config, l: Ledger, p: Packet, d: nat): Ledger
    requires cfg.rate > 0
  {
    Ledger(Processed(cfg, l.table, p).0,
           l.bytes + Forwarded(cfg, l.table, p, d),
           l.refills + FullRefill(cfg, l.table, p, d))
  }

  function Run(cfg: Config, l: Ledger, ps: seq<Packet>, d: nat): Ledger
    requires cfg.rate > 0
    decreases |ps|
  {
    if ps == [] then l else Run(cfg, After(cfg, l, ps[0], d), ps[1..], d)
  }

  /** What has been forwarded since `from` and can still be forwarded at `now` is a burst, what the rate
      has earned, and the rounding of each full refill. */
  ghost predicate Balanced(cfg: Config, l: Ledger, d: nat, from: int, now: int)
    requires cfg.rate > 0
  {
    && TableOk(cfg, l.table, now) && from <= now && Slack(cfg) >= 0
    && M * l.bytes + Credit(cfg, l.table, d, now) <=
       M * cfg.burst + Times(now - from, cfg.rate) + Times(l.refills, Slack(cfg))
  }

  lemma LaterTableOk(cfg: Config, t: Table, from: int, to: int)
    requires TableOk(cfg, t, from) && from <= to
    ensures TableOk(cfg, t, to)
  {
    forall d | d in t ensures BucketOk(cfg, t[d], to) {
      assert BucketOk(cfg, t[d], from);
    }
  }

  lemma TimePasses(cfg: Config, l: Ledger, d: nat, from: int, now: int, to: int)
    requires ConfigOk(cfg) && Balanced(cfg, l, d, from, now) && now <= to
    ensures Balanced(cfg, l, d, from, to)
  {
    LaterTableOk(cfg, l.table, now, to);
    CreditGrowsInTable(cfg, l.table, d, now, to);
    TimesSum(now - from, to - now, cfg.rate);
  }

  lemma PacketBalances(cfg: Config, l: Ledger, p: Packet, d: nat, from: int)
    requires ConfigOk(cfg) && Balanced(cfg, l, d, from, p.time)
    ensures Balanced(cfg, After(cfg, l, p, d), d, from, p.time)
  {
    PacketPays(cfg, l.table, p, d);
    TimesSum(l.refills, FullRefill(cfg, l.table, p, d), Slack(cfg));
  }

  lemma {:induction false} RunBalances(cfg: Config, l: Ledger, ps: seq<Packet>, d: nat, from: int, now: int, to: int)
    requires ConfigOk(cfg) && Balanced(cfg, l, d, from, now) && Within(ps, now, to)
    ensures Balanced(cfg, Run(cfg, l, ps, d), d, from, to)
    decreases |ps|
  {
    if ps == [] {
      TimePasses(cfg, l, d, from, now, to);
    } else {
      TimePasses(cfg, l, d, from, now, ps[0].time);
      PacketBalances(cfg, l, ps[0], d, from);
      RunBalances(cfg, After(cfg, l, ps[0], d), ps[1..], d, from, ps[0].time, to);
    }
  }

  lemma CreditGrowsInTable(cfg: Config, t: Table, d: nat, from: int, to: int)
    requires TableOk(cfg, t, from) && from <= to
    ensures Credit(cfg, t, d, to) <= Credit(cfg, t, d, from) + Times(to - from, cfg.rate)
  {
    assert d in t ==> BucketOk(cfg, t[d], from);
    CreditGrows(cfg, t, d, from, to);
  }

  /** Over any window, whatever packets arrive at any device: the bytes forwarded to a destination are
      at most a burst, plus what the rate earns, plus the rounding of each full refill. */
  lemma RateBound(cfg: Config, t: Table, ps: seq<Packet>, d: nat, from: int, to: int)
    requires ConfigOk(cfg) && TableOk(cfg, t, from) && Within(ps, from, to)
    ensures from <= to
    ensures var r := Run(cfg, Ledger(t, 0, 0), ps, d);
            && M * r.bytes <= M * cfg.burst + cfg.rate * (to - from + r.refills)
            && (M * cfg.burst % cfg.rate == 0 ==> M * r.bytes <= M * cfg.burst + cfg.rate * (to - from))
            && TableOk(cfg, r.table, to)
  {
    var l := Ledger(t, 0, 0);
    SlackIsRemainder(cfg);
    CreditInRange(cfg, t, d, from);
    RunBalances(cfg, l, ps, d, from, from, to);
    var r := Run(cfg, l, ps, d);
    CreditInRange(cfg, r.table, d, to);
    BoundArithmetic(to - from, cfg.rate, r.refills, Slack(cfg));
  }

  /** The packets of the WAN to destination `d`. */
  function PacketsTo(ps: seq<Packet>, d: nat): nat {
    if ps == [] then 0 else (if ps[0].device.Wan? && ps[0].dst == d then 1 else 0) + PacketsTo(ps[1..], d)
  }

  /** The bucket of `d` is full neither when a packet comes nor at the end. */
  ghost predicate NeverFull(cfg: Config, t: Table, ps: seq<Packet>, d: nat, to: int)
    requires cfg.rate > 0
    decreases |ps|
  {
    if ps == [] then Credit(cfg, t, d, to) < M * cfg.burst
    else Credit(cfg, t, d, ps[0].time) < M * cfg.burst
         && NeverFull(cfg, Processed(cfg, t, ps[0]).0, ps[1..], d, to)
  }

  lemma CreditEarned(cfg: Config, t: Table, d: nat, from: int, to: int)
    requires TableOk(cfg, t, from) && from <= to && Credit(cfg, t, d, to) < M * cfg.burst
    ensures Credit(cfg, t, d, to) == Credit(cfg, t, d, from) + Times(to - from, cfg.rate)
  {
    assert BucketOk(cfg, t[d], from);
    TimesSum(from - t[d].time, to - from, cfg.rate);
  }

  /** From one ledger to a later one: earned credit has been forwarded or is still there, except for less than
      one token at each of `packets` packets. */
  ghost predicate Served(cfg: Config, l: Ledger, from: int, r: Ledger, to: int, d: nat, packets: nat)
    requires from <= to
  {
    Credit(cfg, l.table, d, from) + Times(to - from, cfg.rate) <=
    M * (r.bytes - l.bytes + packets) + Credit(cfg, r.table, d, to)
  }

  lemma PacketServes(cfg: Config, l: Ledger, p: Packet, d: nat, now: int)
    requires ConfigOk(cfg) && TableOk(cfg, l.table, now) && now <= p.time
    requires Credit(cfg, l.table, d, p.time) < M * cfg.burst
    ensures Served(cfg, l, now, After(cfg, l, p, d), p.time, d, if p.device.Wan? && p.dst == d then 1 else 0)
    ensures TableOk(cfg, After(cfg, l, p, d).table, p.time)
  {
    LaterTableOk(cfg, l.table, now, p.time);
    CreditEarned(cfg, l.table, d, now, p.time);
    PacketPays(cfg, l.table, p, d);
    PacketKeepsCredit(cfg, l.table, p, d);
  }

  lemma ServedThen(cfg: Config, l: Ledger, a: int, m: Ledger, b: int, r: Ledger, c: int, d: nat, j: nat, k: nat)
    requires a <= b <= c && Served(cfg, l, a, m, b, d, j) && Served(cfg, m, b, r, c, d, k)
    ensures Served(cfg, l, a, r, c, d, j + k)
  {
    TimesSum(b - a, c - b, cfg.rate);
  }

  lemma {:induction false} RunServes(cfg: Config, l: Ledger, ps: seq<Packet>, d: nat, now: int, to: int)
    requires ConfigOk(cfg) && TableOk(cfg, l.table, now) && Within(ps, now, to) && NeverFull(cfg, l.table, ps, d, to)
    ensures now <= to && Served(cfg, l, now, Run(cfg, l, ps, d), to, d, PacketsTo(ps, d))
    decreases |ps|
  {
    if ps == [] {
      CreditEarned(cfg, l.table, d, now, to);
    } else {
      var m := After(cfg, l, ps[0], d);
      PacketServes(cfg, l, ps[0], d, now);
      RunServes(cfg, m, ps[1..], d, ps[0].time, to);
      ServedThen(cfg, l, now, m, ps[0].time, Run(cfg, m, ps[1..], d), to, d,
                 if ps[0].device.Wan? && ps[0].dst == d then 1 else 0, PacketsTo(ps[1..], d));
    }
  }

  /** The other way round: over any window in which its bucket is never full, a destination gets all that the
      rate earns, except for what its credit has grown by, and for less than one token at each of its packets. */
  lemma ServiceBound(cfg: Config, t: Table, ps: seq<Packet>, d: nat, from: int, to: int)
    requires ConfigOk(cfg) && TableOk(cfg, t, from) && Within(ps, from, to) && NeverFull(cfg, t, ps, d, to)
    ensures from <= to
    ensures var r := Run(cfg, Ledger(t, 0, 0), ps, d);
            cfg.rate * (to - from) <=
            M * (r.bytes + PacketsTo(ps, d)) + Credit(cfg, r.table, d, to) - Credit(cfg, t, d, from)
  {
    RunServes(cfg, Ledger(t, 0, 0), ps, d, from, to);
    BoundArithmetic(to - from, cfg.rate, 0, 0);
  }

  lemma BoundArithmetic(time: nat, rate: nat, n: nat, slack: nat)
    requires slack < rate
    ensures Times(time, rate) + Times(n, slack) <= rate * (time + n)
    ensures slack == 0 ==> Times(time, rate) + Times(n, slack) == rate * time
  {
    TimesValue(time, rate);
    TimesValue(n, slack);
    ProductMonotone(slack, rate, n);
  }

  lemma CreditInRange(cfg: Config, t: Table, d: nat, now: int)
    requires ConfigOk(cfg) && TableOk(cfg, t, now)
    ensures 0 <= Credit(cfg, t, d, now) <= M * cfg.burst
  {
    if d in t {
      assert BucketOk(cfg, t[d], now);
    }
  }
}
