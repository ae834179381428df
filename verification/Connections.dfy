/** The connection caps: slots per client host and in total, each returned exactly once. */
module Connections {
  import opened Common

  type Host = string
  type ConnId = nat

  function Count(perIP: map<Host, nat>, h: Host): nat {
    if h in perIP then perIP[h] else 0
  }

  /** The open connections of a host. */
  function From(open: map<ConnId, Host>, h: Host): set<ConnId> {
    set k | k in open && open[k] == h
  }

  /** The counters agree with the open connections, and no host is kept at zero. */
  ghost predicate Agrees(perIP: map<Host, nat>, total: int, open: map<ConnId, Host>) {
    && total == |open|
    && (forall h :: Count(perIP, h) == |From(open, h)|)
    && (forall h :: h in perIP ==> perIP[h] > 0)
  }

  /** One more connection of the host stays within both caps; a cap that is not positive is none. */
  predicate Fits(maxIP: int, maxAll: int, open: map<ConnId, Host>, h: Host) {
    (maxAll <= 0 || |open| < maxAll) && (maxIP <= 0 || |From(open, h)| < maxIP)
  }

  ghost function Sum(m: map<Host, nat>): nat
    decreases |m|
  {
    if m == map[] then 0 else var h :| h in m; m[h] + Sum(m - {h})
  }

  /** Hence the per-host counters add up to the total. */
  lemma {:induction false} SumIsTotal(perIP: map<Host, nat>, total: int, open: map<ConnId, Host>)
    requires Agrees(perIP, total, open)
    ensures Sum(perIP) == total
    decreases |perIP|
  {
    if perIP == map[] {
      assert forall k :: k in open ==> k in From(open, open[k]);
      assert open == map[];
    } else {
      var h :| h in perIP && Sum(perIP) == perIP[h] + Sum(perIP - {h});
      var gone := From(open, h);
      var rest := open - gone;
      assert rest.Keys == open.Keys - gone;
      assert |rest| == |open| - |gone|;
      forall g
        ensures Count(perIP - {h}, g) == |From(rest, g)|
      {
        assert From(rest, g) == if g == h then {} else From(open, g);
      }
      SumIsTotal(perIP - {h}, total - perIP[h], rest);
    }
  }

  /** One more connection of a host. */
  lemma Opened(open: map<ConnId, Host>, k: ConnId, h: Host, g: Host)
    requires k !in open
    ensures |open[k := h]| == |open| + 1
    ensures |From(open[k := h], g)| == |From(open, g)| + if g == h then 1 else 0
  {
    assert open[k := h].Keys == open.Keys + {k};
    assert From(open[k := h], g) == if g == h then From(open, g) + {k} else From(open, g);
  }

  /** One connection less. */
  lemma Closed(open: map<ConnId, Host>, k: ConnId, g: Host)
    requires k in open
    ensures |open - {k}| == |open| - 1
    ensures |From(open - {k}, g)| == |From(open, g)| - if g == open[k] then 1 else 0
  {
    assert (open - {k}).Keys == open.Keys - {k};
    assert From(open - {k}, g) == From(open, g) - {k};
  }

  class ConnLimiter {
    const maxIP: int
    const maxAll: int
    var perIP: map<Host, nat>
    var total: int

    constructor (maxIP: int, maxAll: int)
      ensures this.maxIP == maxIP && this.maxAll == maxAll && perIP == map[] && total == 0
    {
      this.maxIP, this.maxAll := maxIP, maxAll;
      perIP, total := map[], 0;
    }

    /** Reserves a slot; refused exactly when a limit is already reached. */
    method Acquire(h: Host) returns (ok: bool)
      modifies this
      ensures ok <==> (maxAll <= 0 || old(total) < maxAll) && (maxIP <= 0 || old(Count(perIP, h)) < maxIP)
      ensures if ok then perIP == old(perIP)[h := old(Count(perIP, h)) + 1] && total == old(total) + 1
              else perIP == old(perIP) && total == old(total)
    {
      if maxAll > 0 && total >= maxAll {
        return false;
      }
      if maxIP > 0 && Count(perIP, h) >= maxIP {
        return false;
      }
      perIP := perIP[h := Count(perIP, h) + 1];
      total := total + 1;
      return true;
    }

    method Release(h: Host)
      modifies this
      ensures perIP == if old(Count(perIP, h)) <= 1 then old(perIP) - {h} else old(perIP)[h := old(Count(perIP, h)) - 1]
      ensures total == if old(total) > 0 then old(total) - 1 else old(total)
    {
      var n := Count(perIP, h);
      if n <= 1 {
        perIP := perIP - {h};
      } else {
        perIP := perIP[h := n - 1];
      }
      if total > 0 {
        total := total - 1;
      }
    }
  }

  lemma AgreesOpened(perIP: map<Host, nat>, total: int, open: map<ConnId, Host>, k: ConnId, h: Host)
    requires Agrees(perIP, total, open) && k !in open
    ensures Agrees(perIP[h := Count(perIP, h) + 1], total + 1, open[k := h])
  {
    var after := perIP[h := Count(perIP, h) + 1];
    forall g
      ensures Count(after, g) == |From(open[k := h], g)|
    {
      Opened(open, k, h, g);
    }
    Opened(open, k, h, h);
  }

  lemma AgreesClosed(perIP: map<Host, nat>, total: int, open: map<ConnId, Host>, k: ConnId)
    requires Agrees(perIP, total, open) && k in open
    ensures total > 0
    ensures var h := open[k];
            Agrees(if Count(perIP, h) <= 1 then perIP - {h} else perIP[h := Count(perIP, h) - 1], total - 1, open - {k})
  {
    var h := open[k];
    var after := if Count(perIP, h) <= 1 then perIP - {h} else perIP[h := Count(perIP, h) - 1];
    assert k in From(open, h);
    forall g
      ensures Count(after, g) == |From(open - {k}, g)|
    {
      Closed(open, k, g);
    }
    Closed(open, k, h);
  }

  /** A connection the inner listener delivers; `handshake` says whether its PROXY header is good. */
  datatype Arrival = Arrival(host: Host, handshake: bool)

  /** The gate: the limiter, and the connections that hold one of its slots. */
  class Gate {
    const limiter: ConnLimiter
    const proxied: bool
    var open: map<ConnId, Host>
    var next: ConnId

    /** Counters equal to the connections actually open, and neither cap exceeded. */
    ghost predicate Valid()
      reads this, limiter
    {
      && Agrees(limiter.perIP, limiter.total, open)
      && (limiter.maxAll > 0 ==> limiter.total <= limiter.maxAll)
      && (limiter.maxIP > 0 ==> forall h :: h in limiter.perIP ==> limiter.perIP[h] <= limiter.maxIP)
      && (forall k :: k in open ==> k < next)
    }

    /** An arrival that fits, with a good PROXY header where one is expected. */
    predicate Welcome(open: map<ConnId, Host>, a: Arrival) {
      Fits(limiter.maxIP, limiter.maxAll, open, a.host) && (proxied ==> a.handshake)
    }

    constructor (limiter: ConnLimiter, proxied: bool)
      requires limiter.perIP == map[] && limiter.total == 0
      ensures Valid() && this.limiter == limiter && this.proxied == proxied && open == map[]
    {
      this.limiter, this.proxied := limiter, proxied;
      open, next := map[], 0;
    }

    /** Takes a slot and wraps the connection so that closing it returns the slot. */
    method Admit(h: Host) returns (ok: bool, k: ConnId)
      requires Valid()
      modifies this, limiter
      ensures Valid()
      ensures ok <==> Fits(limiter.maxIP, limiter.maxAll, old(open), h)
      ensures if ok then k == old(next) && k !in old(open) && open == old(open)[k := h] && next == k + 1
              else open == old(open) && next == old(next)
    {
      k := next;
      AgreesOpened(limiter.perIP, limiter.total, open, k, h);
      ok := limiter.Acquire(h);
      if ok {
        open := open[k := h];
        next := next + 1;
      }
    }

    /** Closing a connection, any number of times: the first close returns its slot, the others nothing. */
    method Close(k: ConnId)
      requires Valid()
      modifies this`open, limiter
      ensures Valid() && open == old(open) - {k}
    {
      if k !in open {
        assert open - {k} == open;
        return;
      }
      AgreesClosed(limiter.perIP, limiter.total, open, k);
      limiter.Release(open[k]);
      open := open - {k};
    }

    /**
     * The accept loop over arriving connections: refused ones and those with a bad PROXY header leave
     * no slot behind, so it returns the first that fits and is good, and at most that one is new.
     */
    method Accept(arrivals: seq<Arrival>) returns (conn: Option<ConnId>, used: nat)
      requires Valid()
      modifies this, limiter
      ensures Valid() && used <= |arrivals|
      ensures forall i :: 0 <= i < used - (if conn.Some? then 1 else 0) ==> !Welcome(old(open), arrivals[i])
      ensures conn.None? ==> open == old(open) && used == |arrivals|
      ensures conn.Some? ==>
                && used > 0 && conn.value !in old(open)
                && open == old(open)[conn.value := arrivals[used - 1].host]
                && Welcome(old(open), arrivals[used - 1])
    {
      used := 0;
      while used < |arrivals|
        invariant Valid() && used <= |arrivals| && open == old(open) && old(next) <= next
        invariant forall i :: 0 <= i < used ==> !Welcome(open, arrivals[i])
      {
        var a := arrivals[used];
        used := used + 1;
        var ok, k := Admit(a.host);
        if !ok {
          continue;
        }
        if !proxied {
          return Some(k), used;
        }
        if !a.handshake {
          Close(k);
          assert old(open)[k := a.host] - {k} == old(open);
          continue;
        }
        return Some(k), used;
      }
      return None, used;
    }
  }
}
