/** Threads that each hold at most one thing, and the multiset of the things held. */
module Holders {
  import opened Bytes

  type Tid = nat
  type Thing = (nat, nat)

  ghost function HoldersOf(held: map<Tid, Option<Thing>>, e: Thing): set<Tid> {
    set t | t in held && held[t] == Some(e)
  }

  /** Each thing is in `things` as often as there are threads that hold it. */
  ghost predicate Tally(held: map<Tid, Option<Thing>>, things: multiset<Thing>) {
    forall e: Thing :: things[e] == |HoldersOf(held, e)|
  }

  /** Something is held exactly if it is in `things`. */
  lemma HeldIff(held: map<Tid, Option<Thing>>, things: multiset<Thing>, e: Thing)
    requires Tally(held, things)
    ensures e in things <==> exists t :: t in held && held[t] == Some(e)
  {
    assert things[e] == |HoldersOf(held, e)|;
    if t :| t in held && held[t] == Some(e) {
      assert t in HoldersOf(held, e);
    } else {
      assert HoldersOf(held, e) == {};
    }
  }

  /** Something that is there once has one holder. */
  lemma OneHolder(held: map<Tid, Option<Thing>>, things: multiset<Thing>, e: Thing, t: Tid, t': Tid)
    requires Tally(held, things) && things[e] == 1 && t in held && t' in held && held[t] == held[t'] == Some(e)
    ensures t == t'
  {
    var h := HoldersOf(held, e);
    assert things[e] == |h| && t in h && t' in h;
    assert |h - {t}| == 0;
    assert h - {t} == {};
    assert t' !in h - {t};
  }

  lemma HoldersChange(held: map<Tid, Option<Thing>>, t: Tid, h: Option<Thing>, e: Thing)
    ensures HoldersOf(held[t := h], e) == if h == Some(e) then HoldersOf(held, e) + {t} else HoldersOf(held, e) - {t}
  {
  }

  lemma Takes(held: map<Tid, Option<Thing>>, things: multiset<Thing>, t: Tid, e: Thing)
    requires Tally(held, things) && (t in held ==> held[t].None?)
    ensures Tally(held[t := Some(e)], things + multiset{e})
  {
    forall e': Thing ensures (things + multiset{e})[e'] == |HoldersOf(held[t := Some(e)], e')| {
      HoldersChange(held, t, Some(e), e');
      assert t !in HoldersOf(held, e') && things[e'] == |HoldersOf(held, e')|;
      hide HoldersOf;
    }
  }

  lemma Drops(held: map<Tid, Option<Thing>>, things: multiset<Thing>, t: Tid, e: Thing)
    requires Tally(held, things) && t in held && held[t] == Some(e)
    ensures e in things && Tally(held[t := None], things - multiset{e})
  {
    HeldIff(held, things, e);
    forall e': Thing ensures (things - multiset{e})[e'] == |HoldersOf(held[t := None], e')| {
      HoldersChange(held, t, None, e');
      assert (t in HoldersOf(held, e') <==> e' == e) && things[e'] == |HoldersOf(held, e')|;
      hide HoldersOf;
    }
  }

  lemma Keeps(held: map<Tid, Option<Thing>>, things: multiset<Thing>, t: Tid, h: Option<Thing>)
    requires Tally(held, things) && h == if t in held then held[t] else None
    ensures Tally(held[t := h], things)
  {
    forall e: Thing ensures things[e] == |HoldersOf(held[t := h], e)| {
      HoldersChange(held, t, h, e);
      assert (t in HoldersOf(held, e) <==> h == Some(e)) && things[e] == |HoldersOf(held, e)|;
      hide HoldersOf;
    }
  }
}
