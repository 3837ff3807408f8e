/** Timestamps, their order, and the order of the message queue. */
module RosTimes {
  import opened Bytes

  type u32 = n: int | 0 <= n < 0x1_0000_0000

  const NSEC_PER_SEC: nat := 1_000_000_000

  datatype Time = Time(secs: u32, nsecs: u32)
  {
    /** TimeValue::operator< */
    predicate Less(other: Time) {
      secs < other.secs || (secs == other.secs && nsecs < other.nsecs)
    }

    /** TimeValue::operator<= */
    predicate LessEq(other: Time) {
      secs < other.secs || (secs == other.secs && nsecs <= other.nsecs)
    }

    function ToNsec(): int {
      secs as int * NSEC_PER_SEC + nsecs as int
    }

    predicate Normal() {
      nsecs < NSEC_PER_SEC
    }
  }

  /** timestamp_compare_t: true when left must wait for right. */
  predicate Later(left: Time, right: Time) {
    if left.secs > right.secs then true
    else if left.secs == right.secs && left.nsecs > right.nsecs then true
    else false
  }

  /** The queue order is the reverse of a strict total order whose reflexive form is operator<=. */
  lemma QueueOrder(a: Time, b: Time, c: Time)
    ensures Later(a, b) <==> b.Less(a)
    ensures Later(a, b) <==> !a.LessEq(b)
    ensures !Later(a, a) && (Later(a, b) || Later(b, a) || a == b) && !(Later(a, b) && Later(b, a))
    ensures Later(a, b) && Later(b, c) ==> Later(a, c)
    ensures !Later(a, b) && !Later(b, c) ==> !Later(a, c)
  {
  }

  /** Nanoseconds order two times as the operators do. */
  predicate NsecAgrees(a: Time, b: Time) {
    (a.Less(b) <==> a.ToNsec() < b.ToNsec()) && (b.Less(a) <==> b.ToNsec() < a.ToNsec())
  }

  /** Nanoseconds fit a signed 64-bit integer for all field values.  On normal times they are injective and order as the
      operators do. */
  lemma NsecOrder(a: Time, b: Time)
    ensures 0 <= a.ToNsec() < 0x8000_0000_0000_0000
    ensures a.Normal() && b.Normal() ==> NsecAgrees(a, b) && (a == b <==> a.ToNsec() == b.ToNsec())
  {
    if a.secs < b.secs && a.Normal() {
      assert (b.secs - a.secs) * NSEC_PER_SEC >= NSEC_PER_SEC;
    }
    if b.secs < a.secs && b.Normal() {
      assert (a.secs - b.secs) * NSEC_PER_SEC >= NSEC_PER_SEC;
    }
  }

  /** Exactly which times nanoseconds order rightly against every normal time: the normal ones, and those of the last
      second, which no normal time can follow. */
  lemma NsecOrderIsExact(a: Time)
    ensures (forall b: Time :: b.Normal() ==> NsecAgrees(a, b)) <==> a.Normal() || a.secs == 0xFFFF_FFFF
  {
    if a.Normal() || a.secs == 0xFFFF_FFFF {
      forall b: Time | b.Normal()
        ensures NsecAgrees(a, b)
      {
        NsecOrder(a, b);
        if b.secs < a.secs {
          assert (a.secs - b.secs) * NSEC_PER_SEC >= NSEC_PER_SEC;
        }
      }
    } else {
      assert Time(a.secs + 1, 0).Normal() && !NsecAgrees(a, Time(a.secs + 1, 0));
    }
  }

  /** A time that is not normal can come earlier in operator order and later in nanoseconds. */
  lemma NsecOrderNeedsNormal()
    ensures exists a: Time, b: Time :: a.Less(b) && b.Normal() && a.ToNsec() > b.ToNsec()
  {
    assert Time(0, 2_000_000_000).Less(Time(1, 0)) && Time(1, 0).Normal();
    assert Time(0, 2_000_000_000).ToNsec() > Time(1, 0).ToNsec();
  }

  /** Seconds and nanoseconds in nanoseconds. */
  lemma NsecOfSeconds(t: Time)
    ensures t.secs == 0 ==> t.ToNsec() == t.nsecs
    ensures t.secs < 0xFFFF_FFFF ==> Time(t.secs + 1, t.nsecs).ToNsec() == t.ToNsec() + 1_000_000_000
    ensures t.nsecs < 0xFFFF_FFFF ==> Time(t.secs, t.nsecs + 1).ToNsec() == t.ToNsec() + 1
    ensures t.Normal() <==> t.nsecs < 1_000_000_000
  {
  }

  /** The eight bytes of a timestamp in a bag file. */
  function TimeBytes(t: Time): (b: seq<byte>)
    ensures |b| == 8
  {
    U32(t.secs) + U32(t.nsecs)
  }

  function ReadTime(s: seq<byte>, p: nat): Time
    requires p + 8 <= |s|
  {
    Time(ReadU32(s, p), ReadU32(s, p + 4))
  }

  lemma TimeRoundTrip(s: seq<byte>, p: nat, t: Time)
    requires Holds(s, p, TimeBytes(t))
    ensures ReadTime(s, p) == t
  {
    HoldsConcat(s, p, U32(t.secs), U32(t.nsecs));
    U32RoundTrip(s, p, t.secs);
    U32RoundTrip(s, p + 4, t.nsecs);
  }
}
