/** The Python ban script: it asks Elasticsearch for the addresses that hit
    `POST /xmlrpc.php` most in a time window, bans the ones above a threshold
    from many sites, and can remove addresses by hand. The search, the MySQL
    and PowerDNS clients and the clock are outside the model; the search
    result is the list of buckets, and the removal's database and DNS calls
    are events in `Backend.Env`. */
module Script {
  import opened Common
  import opened Text
  import opened IPv4
  import opened Backend

  /** `PowerDnsClient.reverse`: the dot-separated labels in reverse order;
      a string of at most one character is returned as it is. */
  function Reverse(ip: string): (r: string)
    ensures |ip| <= 1 ==> r == ip
  {
    if |ip| <= 1 then ip else Join(Reversed(Split(ip, '.')), '.')
  }

  /** Reversing keeps the length, and the labels of the result are the
      labels of the input back to front. */
  lemma {:induction false} ReverseLabels(ip: string)
    ensures |Reverse(ip)| == |ip|
    ensures Split(Reverse(ip), '.') == Reversed(Split(ip, '.'))
  {
    var labels := Split(ip, '.');
    if |ip| <= 1 {
      if |ip| == 1 && ip[0] == '.' {
        assert ip == [] + ['.'] + [];
        SplitConcat([], [], '.');
      } else if |ip| == 1 {
        SplitNoSeparator(ip, '.');
      }
    } else {
      SplitLabels(ip, '.');
      ReverseAddressLabels(labels);
      JoinLength(Reversed(labels), '.');
      JoinLength(labels, '.');
      JoinSplit(ip, '.');
      WidthReversed(labels);
    }
  }

  /** Reversing twice gives the address back. */
  lemma {:induction false} ReverseInvolution(ip: string)
    ensures Reverse(Reverse(ip)) == ip
  {
    ReverseLabels(ip);
    if |ip| > 1 {
      var labels := Split(ip, '.');
      ReversedTwice(labels);
      JoinSplit(ip, '.');
    }
  }

  /** The decimal spelling of a natural number. */
  function NatString(n: nat): (r: string)
    ensures |r| >= 1 && AllDigits(r)
    decreases n
  {
    if n < 10 then [Digit(n)] else NatString(n / 10) + [Digit(n % 10)]
  }

  /** Reading back a number's decimal spelling gives the number. */
  lemma {:induction false} NatStringValue(n: nat)
    ensures Decimal(NatString(n)) == n
    decreases n
  {
    if n >= 10 {
      NatStringValue(n / 10);
      var s := NatString(n);
      assert s[..|s| - 1] == NatString(n / 10);
    } else {
      assert NatString(n)[..0] == [];
    }
  }

  /** Python's `str` of an integer. */
  function IntString(n: int): string
  {
    if n < 0 then "-" + NatString(-n) else NatString(n)
  }

  /** One bucket of the `ips` terms aggregation: the client address, its
      number of matching requests, and the number of distinct sites hit. */
  datatype Bucket = Bucket(key: string, docCount: int, hosts: int)

  /** One entry of the ban list: the address and the reason recorded. */
  datatype Ban = Ban(ip: string, reason: string)

  /** A bucket is banned when its key is an IPv4 address, it has more hits
      than the threshold, the address is globally routable, and it hit more
      than ten sites. */
  predicate Qualifies(b: Bucket, threshold: int)
  {
    var v := ParseIPv4(b.key);
    v.Some? && b.docCount > threshold && IsGlobal(v.value) && b.hosts > 10
  }

  /** The text a ban reason starts with, before the bucket's hit count. */
  const HitsLabel: string := "Above threshold xmlrpc hits: "

  /** The recorded reason for banning a bucket. */
  function Reason(b: Bucket, window: int): string
  {
    HitsLabel + IntString(b.docCount) + Details(b.hosts, window)
  }

  /** The part of a reason after the hit count; it opens with a space. */
  function Details(hosts: int, window: int): (r: string)
    ensures |r| > 0 && r[0] == ' '
  {
    " Unique webs: " + IntString(hosts) + " Time window: " + IntString(window) + " minutes"
  }

  /** A reason records the bucket's hit count: after the label come the
      sign, if any, and then a run of digits that reads back as the count's
      magnitude, closed by a non-digit. */
  lemma ReasonHits(b: Bucket, window: int)
    ensures var r := Reason(b, window);
      var n := |HitsLabel| + (if b.docCount < 0 then 1 else 0);
      var m := if b.docCount < 0 then -b.docCount else b.docCount;
      && r[..|HitsLabel|] == HitsLabel
      && (b.docCount < 0 ==> r[|HitsLabel|] == '-')
      && n + |NatString(m)| < |r|
      && Decimal(r[n..n + |NatString(m)|]) == m
      && !IsDigit(r[n + |NatString(m)|])
  {
    var m := if b.docCount < 0 then -b.docCount else b.docCount;
    var sign := if b.docCount < 0 then "-" else "";
    var d := NatString(m);
    assert IntString(b.docCount) == sign + d by {
      if b.docCount >= 0 {
        assert "" + d == d;
      }
    }
    var r := Reason(b, window);
    assert r == HitsLabel + (sign + d) + Details(b.hosts, window);
    DigitsBetween(HitsLabel, sign, d, Details(b.hosts, window));
    var n := |HitsLabel| + |sign|;
    assert r[n..n + |d|] == d;
    NatStringValue(m);
  }

  /** Where the pieces of `head + (sign + digits) + rest` lie. */
  lemma DigitsBetween(head: string, sign: string, digits: string, rest: string)
    requires |rest| > 0
    ensures var r := head + (sign + digits) + rest;
      var n := |head| + |sign|;
      && r[..|head|] == head
      && (|sign| > 0 ==> r[|head|] == sign[0])
      && n + |digits| < |r|
      && r[n..n + |digits|] == digits
      && r[n + |digits|] == rest[0]
  {
    var r := head + (sign + digits) + rest;
    assert r == head + (sign + (digits + rest));
  }

  /** The ban list for a sequence of buckets: one entry per qualifying
      bucket, in bucket order. */
  function BanList(buckets: seq<Bucket>, threshold: int, window: int): (r: seq<Ban>)
    ensures |r| <= |buckets|
    decreases |buckets|
  {
    if |buckets| == 0 then []
    else
      var last := buckets[|buckets| - 1];
      BanList(buckets[..|buckets| - 1], threshold, window)
      + (if Qualifies(last, threshold) then [Ban(last.key, Reason(last, window))] else [])
  }

  /** The ban list of two runs of buckets is the two ban lists one after the
      other: the list keeps bucket order. */
  lemma {:induction false} BanListConcat(a: seq<Bucket>, b: seq<Bucket>, threshold: int, window: int)
    ensures BanList(a + b, threshold, window) == BanList(a, threshold, window) + BanList(b, threshold, window)
    decreases |b|
  {
    if |b| == 0 {
      assert a + b == a;
    } else {
      var init := b[..|b| - 1];
      assert (a + b)[..|a + b| - 1] == a + init;
      assert (a + b)[|a + b| - 1] == b[|b| - 1];
      BanListConcat(a, init, threshold, window);
    }
  }

  /** A single bucket contributes its ban exactly when it qualifies; a bucket
      whose key is not an IPv4 address contributes nothing. */
  lemma BanListOne(b: Bucket, threshold: int, window: int)
    ensures BanList([b], threshold, window) == if Qualifies(b, threshold) then [Ban(b.key, Reason(b, window))] else []
    ensures ParseIPv4(b.key).None? ==> BanList([b], threshold, window) == []
  {
    assert [b][..0] == [];
  }

  /** `ban` is the ban of some qualifying bucket of `buckets`. */
  predicate FromBucket(buckets: seq<Bucket>, threshold: int, window: int, ban: Ban)
  {
    exists i :: 0 <= i < |buckets| && Qualifies(buckets[i], threshold) && ban == Ban(buckets[i].key, Reason(buckets[i], window))
  }

  /** Every ban comes from a qualifying bucket: a global IPv4 address with
      more hits than the threshold and more than ten sites. */
  lemma {:induction false} BanListSound(buckets: seq<Bucket>, threshold: int, window: int)
    ensures forall k :: 0 <= k < |BanList(buckets, threshold, window)| ==>
      FromBucket(buckets, threshold, window, BanList(buckets, threshold, window)[k])
    decreases |buckets|
  {
    if |buckets| > 0 {
      var n := |buckets| - 1;
      var init := buckets[..n];
      var last := buckets[n];
      BanListSound(init, threshold, window);
      var before := BanList(init, threshold, window);
      var r := BanList(buckets, threshold, window);
      assert r == before + (if Qualifies(last, threshold) then [Ban(last.key, Reason(last, window))] else []);
      forall k | 0 <= k < |r|
        ensures FromBucket(buckets, threshold, window, r[k])
      {
        if k < |before| {
          assert r[k] == before[k];
          assert FromBucket(init, threshold, window, before[k]);
          var i :| 0 <= i < |init| && Qualifies(init[i], threshold) && before[k] == Ban(init[i].key, Reason(init[i], window));
          assert buckets[i] == init[i];
        } else {
          assert r[k] == Ban(last.key, Reason(last, window)) && Qualifies(last, threshold);
        }
      }
    }
  }

  /** Every qualifying bucket is banned. */
  lemma {:induction false} BanListComplete(buckets: seq<Bucket>, threshold: int, window: int, i: nat)
    requires i < |buckets| && Qualifies(buckets[i], threshold)
    ensures Ban(buckets[i].key, Reason(buckets[i], window)) in BanList(buckets, threshold, window)
  {
    var b := buckets[i];
    assert buckets == buckets[..i] + [b] + buckets[i + 1..];
    BanListConcat(buckets[..i] + [b], buckets[i + 1..], threshold, window);
    BanListConcat(buckets[..i], [b], threshold, window);
    BanListOne(b, threshold, window);
  }

  /** The selection loop of the ban run: buckets whose key is not an IPv4
      address are skipped and the loop goes on; qualifying buckets are
      appended in order. */
  method SelectBans(buckets: seq<Bucket>, threshold: int, window: int) returns (badlist: seq<Ban>)
    ensures badlist == BanList(buckets, threshold, window)
  {
    badlist := [];
    for i := 0 to |buckets|
      invariant badlist == BanList(buckets[..i], threshold, window)
    {
      assert buckets[..i + 1][..i] == buckets[..i];
      var b := buckets[i];
      var v := ParseIPv4(b.key);
      if v.None? {
        continue;
      }
      if b.docCount > threshold && IsGlobal(v.value) && b.hosts > 10 {
        badlist := badlist + [Ban(b.key, Reason(b, window))];
      }
    }
    assert buckets[..|buckets|] == buckets;
  }

  /** The rows handed to `executemany`: each address as a 1-tuple. */
  function Rows(ips: seq<string>): (r: seq<seq<string>>)
    ensures |r| == |ips| && forall i :: 0 <= i < |ips| ==> r[i] == [ips[i]]
  {
    seq(|ips|, i requires 0 <= i < |ips| => [ips[i]])
  }

  /** The DNS removals for a list of addresses, one per address, in order. */
  function Removals(ips: seq<string>): (r: seq<Event>)
    ensures |r| == |ips| && forall i :: 0 <= i < |ips| ==> r[i] == RRSetDelete(Reverse(ips[i]))
  {
    seq(|ips|, i requires 0 <= i < |ips| => RRSetDelete(Reverse(ips[i])))
  }

  /** The manual-removal branch of `cleanup`: wrap each address as a row,
      delete the rows from the database, then remove each address's record
      from the zone, in the order given. */
  method ManualRemove(env: Env, manualRemove: seq<string>)
    requires |manualRemove| > 0
    modifies env
    ensures env.log == old(env.log) + [RowsDelete(Rows(manualRemove))] + Removals(manualRemove)
  {
    var iplist: seq<seq<string>> := [];
    for i := 0 to |manualRemove|
      invariant iplist == Rows(manualRemove[..i])
    {
      iplist := iplist + [[manualRemove[i]]];
    }
    assert manualRemove[..|manualRemove|] == manualRemove;
    env.Notify(RowsDelete(iplist));
    ghost var start := env.log;
    for j := 0 to |iplist|
      invariant env.log == start + Removals(manualRemove[..j])
    {
      env.Notify(RRSetDelete(Reverse(iplist[j][0])));
    }
  }
}
