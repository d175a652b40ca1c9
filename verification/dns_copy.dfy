/** Which spelling the names of a copied packet have: pj_dns_packet_dup shares the first 16
    different names. */
module DnsCopy {
  import opened DnsPacket

  predicate Known(names: seq<Name>, n: Name) {
    exists i :: 0 <= i < |names| && SameName(names[i], n)
  }

  /** The names that differ, in more than letter case, from all names before them */
  function Firsts(names: seq<Name>): seq<Name> {
    if names == [] then []
    else
      var before, n := names[..|names| - 1], names[|names| - 1];
      Firsts(before) + (if Known(before, n) then [] else [n])
  }

  function First16(names: seq<Name>): seq<Name> {
    var all := Firsts(names);
    if |all| <= 16 then all else all[..16]
  }

  /** A copy is spelled like the one of the first 16 different names that it equals, if there is
      one, and like its original otherwise. */
  predicate IsSpelling(before: seq<Name>, n: Name, copy: Name) {
    if Known(First16(before), n) then copy in First16(before) && SameName(copy, n) else copy == n
  }

  ghost predicate Respelled(before: seq<Name>, names: seq<Name>, copies: seq<Name>) {
    |copies| == |names| && forall k :: 0 <= k < |names| ==> IsSpelling(before + names[..k], names[k], copies[k])
  }

  // ----- The table -----

  lemma {:induction false} FirstsKnow(names: seq<Name>, n: Name)
    ensures Known(Firsts(names), n) <==> Known(names, n)
  {
    if names != [] {
      var before, last := names[..|names| - 1], names[|names| - 1];
      FirstsKnow(before, n);
      FirstsKnow(before, last);
      assert names == before + [last];
      FirstsGrow(before, last);
      KnownBehind(before, last, n);
      KnownBehind(Firsts(before), last, n);
      if Known(before, last) && SameName(last, n) { KnownAlike(before, last, n); }
    }
  }

  lemma KnownBehind(names: seq<Name>, last: Name, n: Name)
    ensures Known(names + [last], n) <==> Known(names, n) || SameName(last, n)
  {
    var all := names + [last];
    if Known(names, n) {
      var i :| 0 <= i < |names| && SameName(names[i], n);
      assert SameName(all[i], n);
    }
    if SameName(last, n) { assert SameName(all[|names|], n); }
    if Known(all, n) {
      var i :| 0 <= i < |all| && SameName(all[i], n);
      assert i < |names| ==> SameName(names[i], n);
    }
  }

  lemma KnownAlike(names: seq<Name>, m: Name, n: Name)
    requires Known(names, m) && SameName(m, n)
    ensures Known(names, n)
  {
    var i :| 0 <= i < |names| && SameName(names[i], m);
    assert SameName(names[i], n);
  }

  lemma FirstsGrow(names: seq<Name>, n: Name)
    ensures Firsts(names + [n]) == if Known(names, n) then Firsts(names) else Firsts(names) + [n]
  {
    assert (names + [n])[..|names|] == names;
  }

  /** One more name: what is copied, and what the table holds afterwards */
  lemma SharedOnce(before: seq<Name>, n: Name)
    ensures IsSpelling(before, n, Share(First16(before), n).0)
    ensures Share(First16(before), n).1 == First16(before + [n])
  {
    hide Firsts, SameName;
    var tab := First16(before);
    FirstsKnow(before, n);
    FirstsGrow(before, n);
    FoundIfKnown(tab, n);
    if |Firsts(before)| <= 16 {
      assert tab == Firsts(before);
    } else {
      assert (Firsts(before) + [n])[..16] == tab;
    }
  }

  lemma FoundIfKnown(tab: seq<Name>, n: Name)
    ensures FindName(tab, n) < |tab| <==> Known(tab, n)
  {
    hide SameName;
    var i := FindName(tab, n);
    if i < |tab| {
      assert SameName(tab[i], n);
    }
    if Known(tab, n) {
      var j :| 0 <= j < |tab| && SameName(tab[j], n);
      assert i <= j;
    }
  }

  // ----- The packet -----

  function QueryNames(qs: seq<Query>): seq<Name> {
    if qs == [] then [] else QueryNames(qs[..|qs| - 1]) + [qs[|qs| - 1].name]
  }

  /** The names of a record that are copied through the table: its own, and the target of a service */
  function OwnNames(rr: RR): seq<Name> {
    [rr.name] + (if rr.rdata.Service? then [rr.rdata.target] else [])
  }

  function RecordNames(rrs: seq<RR>): seq<Name> {
    if rrs == [] then [] else RecordNames(rrs[..|rrs| - 1]) + OwnNames(rrs[|rrs| - 1])
  }

  function PacketNames(p: Packet): seq<Name> {
    QueryNames(p.q) + (RecordNames(p.ans) + (RecordNames(p.ns) + RecordNames(p.ar)))
  }

  /** The packet with the sections that are copied */
  function Wanted(p: Packet, o: DupOptions): Packet {
    Packet(p.id, p.flags, if o.noQd then [] else p.q, if o.noAns then [] else p.ans,
           if o.noNs then [] else p.ns, if o.noAr then [] else p.ar)
  }

  lemma RespelledBehind(before: seq<Name>, a: seq<Name>, x: seq<Name>, b: seq<Name>, y: seq<Name>)
    requires Respelled(before, a, x) && Respelled(before + a, b, y)
    ensures Respelled(before, a + b, x + y)
  {
    hide IsSpelling;
    forall k | 0 <= k < |a + b| ensures IsSpelling(before + (a + b)[..k], (a + b)[k], (x + y)[k]) {
      if k < |a| {
        assert (a + b)[..k] == a[..k];
      } else {
        assert before + (a + b)[..k] == before + a + b[..k - |a|];
      }
    }
  }

  lemma RespelledOnce(before: seq<Name>, n: Name, copy: Name)
    requires IsSpelling(before, n, copy)
    ensures Respelled(before, [n], [copy])
  {
    hide IsSpelling;
    assert before + [n][..0] == before;
  }

  lemma RespelledNone(before: seq<Name>)
    ensures Respelled(before, [], []) && before + [] == before
  {
  }

  lemma {:induction false} QueriesRespelled(before: seq<Name>, qs: seq<Query>)
    ensures var r := DupQueries(First16(before), qs);
            Respelled(before, QueryNames(qs), QueryNames(r.0)) && r.1 == First16(before + QueryNames(qs))
    decreases |qs|
  {
    hide Share, First16, Respelled, IsSpelling;
    RespelledNone(before);
    if qs != [] {
      var init, q := qs[..|qs| - 1], qs[|qs| - 1];
      QueriesRespelled(before, init);
      var now := before + QueryNames(init);
      var copies, copy := DupQueries(First16(before), init).0, Share(First16(now), q.name).0;
      SharedOnce(now, q.name);
      RespelledOnce(now, q.name, copy);
      RespelledBehind(before, QueryNames(init), QueryNames(copies), [q.name], [copy]);
      assert (copies + [q.(name := copy)])[..|copies|] == copies;
      assert now + [q.name] == before + QueryNames(qs);
    }
  }

  lemma RecordRespelled(before: seq<Name>, rr: RR)
    ensures var r := DupRecord(First16(before), rr);
            Respelled(before, OwnNames(rr), OwnNames(r.0)) && r.1 == First16(before + OwnNames(rr))
  {
    hide Share, First16, Respelled, IsSpelling;
    SharedOnce(before, rr.name);
    var copy := Share(First16(before), rr.name).0;
    RespelledOnce(before, rr.name, copy);
    if rr.rdata.Service? {
      var now, target := before + [rr.name], rr.rdata.target;
      SharedOnce(now, target);
      var second := Share(First16(now), target).0;
      RespelledOnce(now, target, second);
      RespelledBehind(before, [rr.name], [copy], [target], [second]);
      assert now + [target] == before + OwnNames(rr);
    } else {
      assert OwnNames(rr) == [rr.name] && OwnNames(rr.(name := copy)) == [copy];
    }
  }

  lemma {:induction false} RecordsRespelled(before: seq<Name>, rrs: seq<RR>)
    ensures var r := DupRecords(First16(before), rrs);
            Respelled(before, RecordNames(rrs), RecordNames(r.0)) && r.1 == First16(before + RecordNames(rrs))
    decreases |rrs|
  {
    hide DupRecord, First16, Respelled, IsSpelling, OwnNames;
    RespelledNone(before);
    if rrs != [] {
      var init, rr := rrs[..|rrs| - 1], rrs[|rrs| - 1];
      RecordsRespelled(before, init);
      var now := before + RecordNames(init);
      var copies, copy := DupRecords(First16(before), init).0, DupRecord(First16(now), rr).0;
      RecordRespelled(now, rr);
      RespelledBehind(before, RecordNames(init), RecordNames(copies), OwnNames(rr), OwnNames(copy));
      assert (copies + [copy])[..|copies|] == copies;
      assert now + OwnNames(rr) == before + RecordNames(rrs);
    }
  }

  /** Every name of a copied packet, in the order of the sections. */
  lemma CopyIsRespelled(p: Packet, o: DupOptions)
    ensures Respelled([], PacketNames(Wanted(p, o)), PacketNames(Dup(p, o)))
  {
    hide First16, Respelled, IsSpelling, DupQueries, DupRecords, QueryNames, RecordNames;
    NothingKept();
    var w, d := Wanted(p, o), Dup(p, o);
    var a, b, c := QueryNames(w.q), RecordNames(w.ans), RecordNames(w.ns);
    QueriesRespelled([], w.q);
    RecordsRespelled([] + a, w.ans);
    RecordsRespelled([] + a + b, w.ns);
    RecordsRespelled([] + a + b + c, w.ar);
    RespelledBehind([] + a + b, c, RecordNames(d.ns), RecordNames(w.ar), RecordNames(d.ar));
    RespelledBehind([] + a, b, RecordNames(d.ans), c + RecordNames(w.ar), RecordNames(d.ns) + RecordNames(d.ar));
    RespelledBehind([], a, QueryNames(d.q), b + (c + RecordNames(w.ar)), RecordNames(d.ans) + (RecordNames(d.ns) + RecordNames(d.ar)));
  }

  lemma NothingKept()
    ensures First16([]) == []
  {
  }
}
