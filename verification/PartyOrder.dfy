/** Transfer parties and the order in which a transfer locks their rows. */
module PartyOrder {

  datatype Kind = Bank | Investment

  /** One account row: the table is given by the kind, the row by the id. */
  datatype Party = Party(kind: Kind, id: string)

  function KindName(kind: Kind): string
  {
    match kind
    case Bank => "bank"
    case Investment => "investment"
  }

  /** The sort key `kind:id`. */
  function Key(p: Party): string
  {
    KindName(p.kind) + ":" + p.id
  }

  /** Character-by-character comparison of two strings. */
  predicate Less(a: string, b: string)
  {
    |b| > 0 &&
    (|a| == 0 || a[0] < b[0] || (a[0] == b[0] && Less(a[1..], b[1..])))
  }

  predicate Before(p: Party, q: Party)
  {
    Less(Key(p), Key(q))
  }

  /** The two-element stable sort: the pair is swapped only when the comparator is positive. */
  function Sorted(source: Party, destination: Party): seq<Party>
  {
    if Before(destination, source) then [destination, source] else [source, destination]
  }

  lemma {:induction false} LessIrreflexive(a: string)
    ensures !Less(a, a)
  {
    if |a| > 0 {
      LessIrreflexive(a[1..]);
    }
  }

  lemma {:induction false} LessTransitive(a: string, b: string, c: string)
    requires Less(a, b) && Less(b, c)
    ensures Less(a, c)
  {
    if |a| > 0 && a[0] == b[0] == c[0] {
      LessTransitive(a[1..], b[1..], c[1..]);
    }
  }

  lemma {:induction false} LessTotal(a: string, b: string)
    ensures Less(a, b) || a == b || Less(b, a)
  {
    if |a| > 0 && |b| > 0 && a[0] == b[0] {
      LessTotal(a[1..], b[1..]);
      assert a == [a[0]] + a[1..] && b == [b[0]] + b[1..];
    }
  }

  /** Two parties with one sort key are one party: neither table name contains a colon. */
  lemma KeyInjective(p: Party, q: Party)
    requires Key(p) == Key(q)
    ensures p == q
  {
    assert Key(p)[0] == (if p.kind.Bank? then 'b' else 'i');
    assert Key(q)[0] == (if q.kind.Bank? then 'b' else 'i');
    var n := |KindName(p.kind)| + 1;
    assert Key(p)[n..] == p.id && Key(q)[n..] == q.id;
  }

  /** Rows are locked in a strict total order. */
  lemma BeforeIsStrictTotalOrder(p: Party, q: Party, r: Party)
    ensures !Before(p, p)
    ensures Before(p, q) && Before(q, r) ==> Before(p, r)
    ensures p == q || Before(p, q) || Before(q, p)
    ensures !(Before(p, q) && Before(q, p))
  {
    LessIrreflexive(Key(p));
    if Before(p, q) && Before(q, r) {
      LessTransitive(Key(p), Key(q), Key(r));
    }
    LessTotal(Key(p), Key(q));
    if Key(p) == Key(q) {
      KeyInjective(p, q);
    }
    if Before(p, q) && Before(q, p) {
      LessTransitive(Key(p), Key(q), Key(p));
    }
  }

  /** Crossed transfers lock their two rows in one and the same order. */
  lemma CrossedTransfersLockAlike(a: Party, b: Party)
    ensures Sorted(a, b) == Sorted(b, a)
    ensures a != b ==> Before(Sorted(a, b)[0], Sorted(a, b)[1])
  {
    BeforeIsStrictTotalOrder(a, b, a);
  }

  /** A non-empty finite set of parties has a last one. */
  lemma {:induction false} LastParty(parties: set<Party>) returns (last: Party)
    requires parties != {}
    ensures last in parties
    ensures forall p :: p in parties ==> !Before(last, p)
    decreases |parties|
  {
    var p :| p in parties;
    if parties == {p} {
      last := p;
      LessIrreflexive(Key(p));
    } else {
      var rest := LastParty(parties - {p});
      if Before(rest, p) {
        last := p;
        forall q | q in parties ensures !Before(last, q) {
          BeforeIsStrictTotalOrder(rest, p, q);
          BeforeIsStrictTotalOrder(p, q, p);
          assert q == p || !Before(rest, q);
        }
      } else {
        last := rest;
        forall q | q in parties ensures !Before(last, q) {
          if q != p { assert q in parties - {p}; }
        }
      }
    }
  }
}
