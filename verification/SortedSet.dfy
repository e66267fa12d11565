/** A Redis sorted set of session ids (JTIs), as ZADD, ZRANGE and ZREM see it:
    entries in score order, equal scores ordered by member text, each member once. */
module SortedSet {

  datatype Entry = Entry(score: int, jti: string)

  predicate TextLess(a: string, b: string) {
    if b == [] then false
    else if a == [] then true
    else a[0] < b[0] || (a[0] == b[0] && TextLess(a[1..], b[1..]))
  }

  predicate Before(a: Entry, b: Entry) {
    a.score < b.score || (a.score == b.score && TextLess(a.jti, b.jti))
  }

  ghost predicate Ordered(z: seq<Entry>) {
    forall i, j :: 0 <= i < j < |z| ==> Before(z[i], z[j]) && z[i].jti != z[j].jti
  }

  function Members(z: seq<Entry>): set<string> {
    set e | e in z :: e.jti
  }

  function Jtis(z: seq<Entry>): seq<string> {
    seq(|z|, i requires 0 <= i < |z| => z[i].jti)
  }

  function Listed(jtis: seq<string>): set<string> {
    set j | j in jtis
  }

  /** ZREM of every member in `gone`. */
  function Without(z: seq<Entry>, gone: set<string>): seq<Entry> {
    if z == [] then []
    else (if z[0].jti in gone then [] else [z[0]]) + Without(z[1..], gone)
  }

  function Insert(z: seq<Entry>, e: Entry): seq<Entry> {
    if z == [] || Before(e, z[0]) then [e] + z else [z[0]] + Insert(z[1..], e)
  }

  /** ZADD: a member already present moves to its new score. */
  function Add(z: seq<Entry>, jti: string, score: int): seq<Entry> {
    Insert(Without(z, {jti}), Entry(score, jti))
  }

  /** ZRANGE 0 (count - 1). */
  function Lowest(z: seq<Entry>, count: nat): seq<Entry> {
    z[..if count <= |z| then count else |z|]
  }

  /** The `cap` highest entries, and the jtis of the others oldest first; no positive cap
      keeps everything. */
  function Capped(z: seq<Entry>, cap: int): (seq<Entry>, seq<string>) {
    if 0 < cap < |z| then (z[|z| - cap..], Jtis(z[..|z| - cap])) else (z, [])
  }

  lemma JtisListed(z: seq<Entry>)
    ensures Listed(Jtis(z)) == Members(z)
  {
    forall j | j in Members(z) ensures j in Jtis(z) {
      var i :| 0 <= i < |z| && z[i].jti == j;
      assert Jtis(z)[i] == j;
    }
    forall j | j in Jtis(z) ensures j in Members(z) {
      var i :| 0 <= i < |Jtis(z)| && Jtis(z)[i] == j;
      assert z[i] in z;
    }
  }

  // ----- the order is total on distinct members -----

  lemma {:induction false} TextTotal(a: string, b: string)
    requires a != b
    ensures TextLess(a, b) || TextLess(b, a)
  {
    if a != [] && b != [] && a[0] == b[0] {
      assert a == [a[0]] + a[1..] && b == [b[0]] + b[1..];
      TextTotal(a[1..], b[1..]);
    }
  }

  lemma {:induction false} TextTransitive(a: string, b: string, c: string)
    requires TextLess(a, b) && TextLess(b, c)
    ensures TextLess(a, c)
  {
    if a != [] && a[0] == b[0] == c[0] {
      TextTransitive(a[1..], b[1..], c[1..]);
    }
  }

  lemma BeforeTransitive(a: Entry, b: Entry, c: Entry)
    requires Before(a, b) && Before(b, c)
    ensures Before(a, c)
  {
    if a.score == b.score == c.score {
      TextTransitive(a.jti, b.jti, c.jti);
    }
  }

  // ----- ZREM -----

  lemma {:induction false} WithoutContents(z: seq<Entry>, gone: set<string>)
    ensures forall e :: e in Without(z, gone) <==> e in z && e.jti !in gone
    ensures Members(Without(z, gone)) == Members(z) - gone
    ensures |Without(z, gone)| <= |z|
  {
    if z != [] {
      WithoutContents(z[1..], gone);
      assert z == [z[0]] + z[1..];
    }
  }

  lemma {:induction false} WithoutOrdered(z: seq<Entry>, gone: set<string>)
    requires Ordered(z)
    ensures Ordered(Without(z, gone))
  {
    if z != [] {
      WithoutOrdered(z[1..], gone);
      WithoutContents(z[1..], gone);
      var rest := Without(z[1..], gone);
      forall i | 0 <= i < |rest| ensures Before(z[0], rest[i]) && z[0].jti != rest[i].jti {
        assert rest[i] in z[1..];
      }
    }
  }

  lemma {:induction false} WithoutNothing(z: seq<Entry>, gone: set<string>)
    requires Members(z) !! gone
    ensures Without(z, gone) == z
  {
    if z != [] {
      assert z[0].jti in Members(z);
      assert Members(z[1..]) <= Members(z);
      WithoutNothing(z[1..], gone);
    }
  }

  lemma {:induction false} WithoutTwice(z: seq<Entry>, a: set<string>, b: set<string>)
    ensures Without(Without(z, a), b) == Without(z, a + b)
  {
    if z != [] {
      WithoutTwice(z[1..], a, b);
      if z[0].jti !in a {
        assert Without(z, a)[1..] == Without(z[1..], a);
      } else {
        assert Without(z, a) == Without(z[1..], a);
        assert z[0].jti in a + b;
      }
    }
  }

  /** Removing what a ZRANGE of the lowest `k` returned leaves exactly the rest. */
  lemma {:induction false} WithoutLowest(z: seq<Entry>, k: nat)
    requires Ordered(z) && k <= |z|
    ensures Without(z, Members(z[..k])) == z[k..]
  {
    if k == 0 {
      WithoutNothing(z, Members(z[..0]));
    } else {
      var tail := z[1..];
      assert z[..k] == [z[0]] + tail[..k - 1];
      assert Members(z[..k]) == {z[0].jti} + Members(tail[..k - 1]);
      WithoutLowest(tail, k - 1);
      WithoutTwice(tail, {z[0].jti}, Members(tail[..k - 1]));
      assert z[0].jti !in Members(tail);
      WithoutNothing(tail, {z[0].jti});
      assert z[0].jti in Members(z[..k]);
      assert Without(z, Members(z[..k])) == Without(tail, Members(z[..k]));
      assert tail[k - 1..] == z[k..];
    }
  }

  // ----- ZADD -----

  lemma {:induction false} InsertContents(z: seq<Entry>, e: Entry)
    ensures forall x :: x in Insert(z, e) <==> x == e || x in z
    ensures Members(Insert(z, e)) == Members(z) + {e.jti}
    ensures |Insert(z, e)| == |z| + 1
  {
    if z != [] && !Before(e, z[0]) {
      InsertContents(z[1..], e);
      assert z == [z[0]] + z[1..];
    } else {
      assert forall x :: x in [e] + z <==> x == e || x in z;
    }
  }

  lemma {:induction false} InsertOrdered(z: seq<Entry>, e: Entry)
    requires Ordered(z) && e.jti !in Members(z)
    ensures Ordered(Insert(z, e))
  {
    if z == [] {
    } else if Before(e, z[0]) {
      forall i | 0 <= i < |z| ensures Before(e, z[i]) && z[i].jti != e.jti {
        assert z[i].jti in Members(z);
        if i > 0 { BeforeTransitive(e, z[0], z[i]); }
      }
    } else {
      assert z[0].jti in Members(z);
      if z[0].score == e.score { TextTotal(z[0].jti, e.jti); }
      assert Members(z[1..]) <= Members(z);
      InsertOrdered(z[1..], e);
      InsertContents(z[1..], e);
      var rest := Insert(z[1..], e);
      forall i | 0 <= i < |rest| ensures Before(z[0], rest[i]) && z[0].jti != rest[i].jti {
        if rest[i] != e { assert rest[i] in z[1..]; }
      }
    }
  }

  lemma AddKeepsOrder(z: seq<Entry>, jti: string, score: int)
    requires Ordered(z)
    ensures Ordered(Add(z, jti, score))
    ensures Members(Add(z, jti, score)) == Members(z) + {jti}
    ensures |Add(z, jti, score)| <= |z| + 1
  {
    WithoutContents(z, {jti});
    WithoutOrdered(z, {jti});
    InsertContents(Without(z, {jti}), Entry(score, jti));
    InsertOrdered(Without(z, {jti}), Entry(score, jti));
  }

  /** A score above every tracked one goes last. */
  lemma {:induction false} AddLatest(z: seq<Entry>, e: Entry)
    requires forall x :: x in z ==> x.score < e.score
    ensures Insert(z, e) == z + [e]
  {
    if z != [] {
      assert z[0] in z;
      AddLatest(z[1..], e);
    }
  }
}
