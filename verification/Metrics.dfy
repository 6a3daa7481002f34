/** Aggregating the metrics sink: per kind of record and per numeric field, the median, the
    95th percentile and the maximum. Numbers are exact reals, and the two quantiles are the
    rationals 1/2 and 19/20. */
module Metrics {
  import opened Options

  datatype Json = Object(members: seq<Member>) | Number(n: real) | Array(len: nat) | Text(text: string) | Other

  datatype Member = Member(key: string, value: Json)

  // ---- Flattening ------------------------------------------------------------------

  /** Timestamps and the schema version are not worth a statistic. */
  predicate Skipped(key: string) {
    key == "ts_unix_ms" || key == "schema"
  }

  function Dotted(prefix: string, key: string): string {
    if prefix == "" then key else prefix + "." + key
  }

  datatype Leaf = Leaf(field: string, value: real)

  /** The numeric leaves of a value, in order; an array counts by its length. */
  function Leaves(prefix: string, v: Json): seq<Leaf>
    decreases v
  {
    match v
    case Object(members) => MemberLeaves(prefix, members)
    case Number(n) => [Leaf(prefix, n)]
    case Array(len) => [Leaf(prefix + ".len", len as real)]
    case _ => []
  }

  function MemberLeaves(prefix: string, members: seq<Member>): seq<Leaf>
    decreases members
  {
    if members == [] then []
    else
      var last := members[|members| - 1];
      MemberLeaves(prefix, members[..|members| - 1]) +
      (if Skipped(last.key) then [] else Leaves(Dotted(prefix, last.key), last.value))
  }

  /** No key has a dot, and no two are alike in one object. */
  ghost predicate Plain(v: Json)
    decreases v
  {
    v.Object? ==>
      && (forall i, j | 0 <= i < j < |v.members| :: v.members[i].key != v.members[j].key)
      && (forall i | 0 <= i < |v.members| :: '.' !in v.members[i].key && Plain(v.members[i].value))
  }

  /** No key of the object itself is empty; those further down may be. */
  ghost predicate NoEmptyKey(members: seq<Member>) {
    forall i | 0 <= i < |members| :: members[i].key != ""
  }

  /** A field is that of `prefix` itself or of something inside it. */
  predicate Under(prefix: string, field: string) {
    field == prefix || prefix + "." <= field
  }

  /** Siblings share no field. */
  lemma SiblingsApart(prefix: string, a: string, b: string, field: string)
    requires '.' !in a && '.' !in b && a != b
    requires Under(Dotted(prefix, a), field)
    ensures !Under(Dotted(prefix, b), field)
  {
    var lead := if prefix == "" then "" else prefix + ".";
    assert Dotted(prefix, a) == lead + a && Dotted(prefix, b) == lead + b;
    if Under(lead + b, field) {
      SegmentOf(lead, a, field);
      SegmentOf(lead, b, field);
    }
  }

  /** The key right after `lead` is what comes before the next dot, or the end. */
  lemma SegmentOf(lead: string, key: string, field: string)
    requires Under(lead + key, field) && '.' !in key
    ensures |lead + key| <= |field| && field[|lead|..|lead + key|] == key
    ensures forall i | |lead| <= i < |lead + key| :: field[i] != '.'
    ensures |lead + key| < |field| ==> field[|lead + key|] == '.'
  {
    assert lead + key == field[..|lead + key|];
    assert (lead + key)[|lead|..] == key;
    if field != lead + key { assert (lead + key + ".")[|lead + key|] == '.'; }
    forall i | |lead| <= i < |lead + key| ensures field[i] != '.' {
      assert field[i] == (lead + key)[i] == key[i - |lead|];
    }
  }

  ghost predicate FieldsDistinct(leaves: seq<Leaf>) {
    forall i, j | 0 <= i < j < |leaves| :: leaves[i].field != leaves[j].field
  }

  lemma {:induction false} LeavesAreUnder(prefix: string, v: Json)
    requires Plain(v) && prefix != ""
    ensures forall i | 0 <= i < |Leaves(prefix, v)| :: Under(prefix, Leaves(prefix, v)[i].field)
    decreases v
  {
    match v {
      case Object(members) =>
        forall i | 0 <= i < |Leaves(prefix, v)| ensures Under(prefix, Leaves(prefix, v)[i].field) {
          var m := MemberOfLeaf(prefix, members, i);
          LeavesAreUnder(Dotted(prefix, members[m].key), members[m].value);
        }
      case Array(_) => assert prefix + "." <= prefix + ".len";
      case _ =>
    }
  }

  /** The member that a leaf of an object comes from. */
  lemma {:induction false} MemberOfLeaf(prefix: string, members: seq<Member>, i: nat) returns (m: nat)
    requires i < |MemberLeaves(prefix, members)|
    ensures m < |members| && !Skipped(members[m].key)
    ensures MemberLeaves(prefix, members)[i] in Leaves(Dotted(prefix, members[m].key), members[m].value)
    decreases members
  {
    var init := members[..|members| - 1];
    if i < |MemberLeaves(prefix, init)| {
      m := MemberOfLeaf(prefix, init, i);
    } else {
      m := |members| - 1;
    }
  }

  lemma {:induction false} MembersDistinct(prefix: string, members: seq<Member>)
    requires Plain(Object(members)) && (prefix != "" || NoEmptyKey(members))
    requires forall i | 0 <= i < |members| :: FieldsDistinct(Leaves(Dotted(prefix, members[i].key), members[i].value))
    ensures FieldsDistinct(MemberLeaves(prefix, members))
    decreases members
  {
    if members != [] {
      var init, last := members[..|members| - 1], members[|members| - 1];
      assert Plain(Object(init)) by { InitIsPlain(members); }
      MembersDistinct(prefix, init);
      var left, right := MemberLeaves(prefix, init), Leaves(Dotted(prefix, last.key), last.value);
      forall i, j | 0 <= i < |left| && 0 <= j < |right| ensures left[i].field != right[j].field {
        var m := MemberOfLeaf(prefix, init, i);
        LeavesAreUnder(Dotted(prefix, init[m].key), init[m].value);
        LeavesAreUnder(Dotted(prefix, last.key), last.value);
        SiblingsApart(prefix, init[m].key, last.key, left[i].field);
      }
    }
  }

  lemma InitIsPlain(members: seq<Member>)
    requires members != [] && Plain(Object(members))
    ensures Plain(Object(members[..|members| - 1]))
  {
    var init := members[..|members| - 1];
    assert forall i | 0 <= i < |init| :: init[i] == members[i];
  }

  /** Dotted paths never collide within one record whose keys have no dot, and whose own keys
      are not empty. */
  lemma {:induction false} FieldsNeverCollide(prefix: string, v: Json)
    requires Plain(v) && (prefix != "" || (v.Object? ==> NoEmptyKey(v.members)))
    ensures FieldsDistinct(Leaves(prefix, v))
    decreases v
  {
    if v.Object? {
      forall i | 0 <= i < |v.members|
        ensures FieldsDistinct(Leaves(Dotted(prefix, v.members[i].key), v.members[i].value))
      {
        FieldsNeverCollide(Dotted(prefix, v.members[i].key), v.members[i].value);
      }
      MembersDistinct(prefix, v.members);
    }
  }

  // ---- When fields collide ----------------------------------------------------------

  /** The field of a list of keys, as the nesting builds it. */
  function DotPath(path: seq<string>): string {
    if path == [] then "" else Dotted(DotPath(path[..|path| - 1]), path[|path| - 1])
  }

  /** Dotting forgets the empty keys that a path begins with, and no others. */
  function DropEmpty(path: seq<string>): seq<string> {
    if path != [] && path[0] == "" then DropEmpty(path[1..]) else path
  }

  function Join(pieces: seq<string>): string {
    if pieces == [] then ""
    else if |pieces| == 1 then pieces[0]
    else pieces[0] + "." + Join(pieces[1..])
  }

  /** A key taken apart at its dots. */
  function SplitDots(key: string): (pieces: seq<string>)
    ensures pieces != [] && forall i | 0 <= i < |pieces| :: '.' !in pieces[i]
  {
    if key == "" then [""]
    else
      var rest := SplitDots(key[1..]);
      if key[0] == '.' then [""] + rest else [[key[0]] + rest[0]] + rest[1..]
  }

  function AllPieces(path: seq<string>): seq<string> {
    if path == [] then [] else AllPieces(path[..|path| - 1]) + SplitDots(path[|path| - 1])
  }

  /** Where a numeric leaf is: its keys, and whether it stands for an array's length. */
  datatype Spot = Spot(path: seq<string>, isArray: bool)

  /** The spots of a value's leaves, in the order of `Leaves`. */
  function Spots(path: seq<string>, v: Json): seq<Spot>
    decreases v
  {
    match v
    case Object(members) => MemberSpots(path, members)
    case Number(_) => [Spot(path, false)]
    case Array(_) => [Spot(path, true)]
    case _ => []
  }

  function MemberSpots(path: seq<string>, members: seq<Member>): seq<Spot>
    decreases members
  {
    if members == [] then []
    else
      var last := members[|members| - 1];
      MemberSpots(path, members[..|members| - 1]) +
      (if Skipped(last.key) then [] else Spots(path + [last.key], last.value))
  }

  /** The pieces that tell spots apart: those of the keys, the leading empty keys dropped, and
      for an array one more. */
  function Pieces(s: Spot): seq<string> {
    var kept := DropEmpty(s.path);
    (if kept == [] then [""] else AllPieces(kept)) + (if s.isArray then ["len"] else [])
  }

  ghost predicate SpotsApart(spots: seq<Spot>) {
    forall i, j | 0 <= i < j < |spots| :: Pieces(spots[i]) != Pieces(spots[j])
  }

  function FieldOf(s: Spot): string {
    DotPath(s.path) + (if s.isArray then ".len" else "")
  }

  lemma {:induction false} JoinAppends(a: seq<string>, b: seq<string>)
    requires a != [] && b != []
    ensures Join(a + b) == Join(a) + "." + Join(b)
  {
    assert (a + b)[1..] == a[1..] + b;
    if |a| > 1 {
      JoinAppends(a[1..], b);
      assert a[0] + "." + (Join(a[1..]) + "." + Join(b)) == a[0] + "." + Join(a[1..]) + "." + Join(b);
    }
  }

  lemma {:induction false} JoinOfSplit(key: string)
    ensures Join(SplitDots(key)) == key
  {
    if key != "" {
      JoinOfSplit(key[1..]);
      var rest := SplitDots(key[1..]);
      if key[0] == '.' {
        JoinAppends([""], rest);
      } else if |rest| > 1 {
        assert SplitDots(key)[1..] == rest[1..];
        assert key == [key[0]] + (rest[0] + "." + Join(rest[1..]));
      }
    }
  }

  /** Up to the first dot, joined dot-free pieces are the first piece. */
  lemma JoinStarts(pieces: seq<string>)
    requires pieces != [] && '.' !in pieces[0]
    ensures var s := Join(pieces);
            && pieces[0] <= s
            && (if |pieces| == 1 then s == pieces[0]
                else |s| > |pieces[0]| && s[|pieces[0]|] == '.' && s[|pieces[0]| + 1..] == Join(pieces[1..]))
  {
  }

  lemma {:induction false} JoinInjective(a: seq<string>, b: seq<string>)
    requires a != [] && b != [] && Join(a) == Join(b)
    requires (forall i | 0 <= i < |a| :: '.' !in a[i]) && (forall i | 0 <= i < |b| :: '.' !in b[i])
    ensures a == b
  {
    hide Join;
    JoinStarts(a);
    JoinStarts(b);
    var s := Join(a);
    assert a[0] == s[..|a[0]|] && b[0] == s[..|b[0]|];
    assert a[0] == b[0];
    if |a| > 1 && |b| > 1 {
      JoinInjective(a[1..], b[1..]);
      assert a == [a[0]] + a[1..] && b == [b[0]] + b[1..];
    }
  }

  lemma {:induction false} AllPiecesAreDotFree(path: seq<string>)
    ensures forall i | 0 <= i < |AllPieces(path)| :: '.' !in AllPieces(path)[i]
    ensures path != [] ==> AllPieces(path) != []
  {
    if path != [] { AllPiecesAreDotFree(path[..|path| - 1]); }
  }

  lemma {:induction false} DropEmptySnoc(path: seq<string>, key: string)
    ensures DropEmpty(path + [key]) ==
            if DropEmpty(path) == [] then (if key == "" then [] else [key]) else DropEmpty(path) + [key]
  {
    if path != [] && path[0] == "" {
      assert (path + [key])[1..] == path[1..] + [key];
      DropEmptySnoc(path[1..], key);
    }
  }

  /** The field of a path is the join of the pieces of what is left of it. */
  lemma {:induction false} DotPathJoins(path: seq<string>)
    ensures DotPath(path) == Join(AllPieces(DropEmpty(path)))
    ensures DotPath(path) == "" <==> DropEmpty(path) == []
  {
    if path != [] {
      var init, key := path[..|path| - 1], path[|path| - 1];
      assert path == init + [key];
      DotPathJoins(init);
      DropEmptySnoc(init, key);
      JoinOfSplit(key);
      var kept := DropEmpty(init);
      if kept == [] {
        assert [key][..0] == [];
        assert AllPieces([key]) == SplitDots(key);
      } else {
        assert (kept + [key])[..|kept|] == kept;
        AllPiecesAreDotFree(kept);
        JoinAppends(AllPieces(kept), SplitDots(key));
      }
    }
  }

  lemma FieldJoins(s: Spot)
    ensures FieldOf(s) == Join(Pieces(s))
    ensures Pieces(s) != [] && forall i | 0 <= i < |Pieces(s)| :: '.' !in Pieces(s)[i]
  {
    hide DropEmpty, AllPieces, DotPath;
    DotPathJoins(s.path);
    var kept := DropEmpty(s.path);
    AllPiecesAreDotFree(kept);
    var pieces := if kept == [] then [""] else AllPieces(kept);
    assert Join(pieces) == DotPath(s.path);
    if s.isArray { JoinAppends(pieces, ["len"]); } else { assert pieces + [] == pieces; }
  }

  /** Two leaves have the same field exactly when their pieces agree. */
  lemma SameFieldExactly(a: Spot, b: Spot)
    ensures FieldOf(a) == FieldOf(b) <==> Pieces(a) == Pieces(b)
  {
    hide Join, Pieces, FieldOf;
    FieldJoins(a);
    FieldJoins(b);
    if FieldOf(a) == FieldOf(b) { JoinInjective(Pieces(a), Pieces(b)); }
  }

  /** Between keys without dots: exactly when the keys agree, but for leading empty ones. */
  lemma SamePlainPathExactly(p: seq<string>, q: seq<string>)
    requires (forall i | 0 <= i < |p| :: '.' !in p[i]) && (forall i | 0 <= i < |q| :: '.' !in q[i])
    ensures DotPath(p) == DotPath(q) <==> DropEmpty(p) == DropEmpty(q)
  {
    hide DotPath, AllPieces, DropEmpty, Join;
    var a, b := DropEmpty(p), DropEmpty(q);
    DotPathJoins(p);
    DotPathJoins(q);
    DropEmptyStaysPlain(p);
    DropEmptyStaysPlain(q);
    PiecesOfPlain(a);
    PiecesOfPlain(b);
    if DotPath(p) == DotPath(q) && a != [] && b != [] { JoinInjective(a, b); }
  }

  lemma {:induction false} DropEmptyStaysPlain(path: seq<string>)
    requires forall i | 0 <= i < |path| :: '.' !in path[i]
    ensures forall i | 0 <= i < |DropEmpty(path)| :: '.' !in DropEmpty(path)[i]
  {
    if path != [] && path[0] == "" { DropEmptyStaysPlain(path[1..]); }
  }

  lemma {:induction false} SplitOfPlain(key: string)
    requires '.' !in key
    ensures SplitDots(key) == [key]
  {
    if key != "" {
      SplitOfPlain(key[1..]);
      assert key == [key[0]] + key[1..];
    }
  }

  lemma {:induction false} PiecesOfPlain(path: seq<string>)
    requires forall i | 0 <= i < |path| :: '.' !in path[i]
    ensures AllPieces(path) == path
  {
    if path != [] {
      PiecesOfPlain(path[..|path| - 1]);
      SplitOfPlain(path[|path| - 1]);
    }
  }

  lemma {:induction false} LeavesAtSpots(path: seq<string>, v: Json)
    ensures |Leaves(DotPath(path), v)| == |Spots(path, v)|
    ensures forall i | 0 <= i < |Spots(path, v)| :: Leaves(DotPath(path), v)[i].field == FieldOf(Spots(path, v)[i])
    decreases v
  {
    match v {
      case Object(members) => MemberLeavesAtSpots(path, members);
      case Number(_) => assert DotPath(path) + "" == DotPath(path);
      case _ =>
    }
  }

  lemma {:induction false} MemberLeavesAtSpots(path: seq<string>, members: seq<Member>)
    ensures |MemberLeaves(DotPath(path), members)| == |MemberSpots(path, members)|
    ensures forall i | 0 <= i < |MemberSpots(path, members)| ::
              MemberLeaves(DotPath(path), members)[i].field == FieldOf(MemberSpots(path, members)[i])
    decreases members
  {
    hide FieldOf;
    if members != [] {
      var last := members[|members| - 1];
      MemberLeavesAtSpots(path, members[..|members| - 1]);
      LeavesAtSpots(path + [last.key], last.value);
      assert (path + [last.key])[..|path|] == path;
    }
  }

  /** For every record: its fields are distinct if and only if the pieces of its leaves are. */
  lemma FieldsDistinctExactly(v: Json)
    ensures FieldsDistinct(Leaves("", v)) <==> SpotsApart(Spots([], v))
  {
    hide Leaves, Spots, FieldOf, Pieces;
    var leaves, spots := Leaves("", v), Spots([], v);
    LeavesAtSpots([], v);
    forall i, j | 0 <= i < j < |spots|
      ensures leaves[i].field == leaves[j].field <==> Pieces(spots[i]) == Pieces(spots[j])
    {
      SameFieldExactly(spots[i], spots[j]);
    }
  }

  lemma TwoLeaves(a: Member, b: Member, x: Leaf, y: Leaf)
    requires !Skipped(a.key) && !Skipped(b.key)
    requires Leaves(a.key, a.value) == [x] && Leaves(b.key, b.value) == [y]
    ensures Leaves("", Object([a, b])) == [x, y]
  {
    OneLeaf("", a, x);
    assert [a, b][..1] == [a];
  }

  lemma OneLeaf(prefix: string, a: Member, x: Leaf)
    requires !Skipped(a.key) && Leaves(Dotted(prefix, a.key), a.value) == [x]
    ensures Leaves(prefix, Object([a])) == [x]
  {
    assert [a][..0] == [] && [a][0] == a;
    assert MemberLeaves(prefix, []) == [];
    assert MemberLeaves(prefix, [a]) == [] + [x];
  }

  /** An empty key of the record itself disappears, and two leaves collide. */
  lemma EmptyKeysCollide()
    ensures var v := Object([Member("", Object([Member("a", Number(1.0))])), Member("a", Number(2.0))]);
            Leaves("", v) == [Leaf("a", 1.0), Leaf("a", 2.0)]
  {
    OneLeaf("", Member("a", Number(1.0)), Leaf("a", 1.0));
    TwoLeaves(Member("", Object([Member("a", Number(1.0))])), Member("a", Number(2.0)), Leaf("a", 1.0), Leaf("a", 2.0));
  }

  /** A key with a dot reads as a path, and two leaves collide. */
  lemma DottedKeysCollide()
    ensures var v := Object([Member("a.b", Number(1.0)), Member("a", Object([Member("b", Number(2.0))]))]);
            Leaves("", v) == [Leaf("a.b", 1.0), Leaf("a.b", 2.0)]
  {
    assert Dotted("a", "b") == "a.b";
    OneLeaf("a", Member("b", Number(2.0)), Leaf("a.b", 2.0));
    TwoLeaves(Member("a.b", Number(1.0)), Member("a", Object([Member("b", Number(2.0))])),
              Leaf("a.b", 1.0), Leaf("a.b", 2.0));
  }

  // ---- Statistics -------------------------------------------------------------------

  function Insert(x: real, s: seq<real>): seq<real> {
    if s == [] || x <= s[0] then [x] + s else [s[0]] + Insert(x, s[1..])
  }

  function Sorted(s: seq<real>): seq<real> {
    if s == [] then [] else Insert(s[|s| - 1], Sorted(s[..|s| - 1]))
  }

  ghost predicate Ascending(s: seq<real>) {
    forall i, j | 0 <= i < j < |s| :: s[i] <= s[j]
  }

  lemma {:induction false} InsertPermutes(x: real, s: seq<real>)
    ensures multiset(Insert(x, s)) == multiset(s) + multiset{x}
  {
    if s != [] && x > s[0] {
      InsertPermutes(x, s[1..]);
      assert s == [s[0]] + s[1..];
    }
  }

  lemma {:induction false} InsertInOrder(x: real, s: seq<real>)
    requires Ascending(s)
    ensures Ascending(Insert(x, s))
    ensures forall y | y in Insert(x, s) :: y == x || y in s
  {
    if s != [] && x > s[0] {
      var rest := Insert(x, s[1..]);
      InsertInOrder(x, s[1..]);
      forall i | 0 <= i < |rest| ensures s[0] <= rest[i] && (rest[i] == x || rest[i] in s) {
        assert rest[i] in rest;
      }
      AscendingCons(s[0], rest);
      assert Insert(x, s) == [s[0]] + rest;
    } else {
      AscendingCons(x, s);
      assert forall y | y in [x] + s :: y == x || y in s;
    }
  }

  lemma AscendingCons(x: real, s: seq<real>)
    requires Ascending(s) && forall i | 0 <= i < |s| :: x <= s[i]
    ensures Ascending([x] + s)
  {
  }

  lemma {:induction false} SortedAscends(s: seq<real>)
    ensures Ascending(Sorted(s))
  {
    hide Insert;
    if s != [] {
      SortedAscends(s[..|s| - 1]);
      InsertInOrder(s[|s| - 1], Sorted(s[..|s| - 1]));
    }
  }

  lemma {:induction false} SortedPermutes(s: seq<real>)
    ensures multiset(Sorted(s)) == multiset(s) && |Sorted(s)| == |s|
  {
    hide Insert;
    if s != [] {
      var init, x := s[..|s| - 1], s[|s| - 1];
      SortedPermutes(init);
      InsertPermutes(x, Sorted(init));
      assert s == init + [x];
      assert |multiset(Sorted(s))| == |multiset(s)|;
    }
  }

  datatype FieldStats = FieldStats(count: nat, p50: real, p95: real, max: real)

  /** The rank of quantile `num / den` among `n` values: the nearest, halves going up. */
  function Rank(n: nat, num: nat, den: nat): (r: nat)
    requires n > 0 && 0 < num <= den
    ensures r < n
  {
    var nearest := (2 * num * (n - 1) + den) / (2 * den);
    if nearest < n then nearest else n - 1
  }

  /** The quantile `num / den` of sorted values. */
  function Percentile(sorted: seq<real>, num: nat, den: nat): real
    requires 0 < num <= den
  {
    if sorted == [] then 0.0 else sorted[Rank(|sorted|, num, den)]
  }

  function Summary(values: seq<real>): FieldStats {
    var sorted := Sorted(values);
    FieldStats(|sorted|, Percentile(sorted, 1, 2), Percentile(sorted, 19, 20),
               if sorted == [] then 0.0 else sorted[|sorted| - 1])
  }

  /** The two ranks are the nearest to half and to nineteen twentieths of the way from the
      first value to the last, halves going up, and the first is not above the second. */
  lemma RanksAreNearest(n: nat)
    requires n > 0
    ensures var r := Rank(n, 1, 2); 2 * r - 1 <= n - 1 < 2 * r + 1
    ensures var r := Rank(n, 19, 20); 20 * r - 10 <= 19 * (n - 1) < 20 * r + 10
    ensures Rank(n, 1, 2) == n / 2 && Rank(n, 1, 2) <= Rank(n, 19, 20)
  {
    var m := n - 1;
    assert Rank(n, 1, 2) == if (2 * m + 2) / 4 < n then (2 * m + 2) / 4 else n - 1;
    assert Rank(n, 19, 20) == if (38 * m + 20) / 40 < n then (38 * m + 20) / 40 else n - 1;
    if m > 0 {
      assert (2 * m + 2) / 4 <= (38 * m + 20) / 40;
      assert (2 * m + 2) / 4 == (m + 1) / 2;
    }
  }

  /** Of values that were observed at all, the three statistics are observed values, in
      order, and the last is at least every one. */
  lemma SummaryIsObserved(values: seq<real>)
    requires values != []
    ensures var s := Summary(values);
            && s.count == |values|
            && s.p50 in values && s.p95 in values && s.max in values
            && s.p50 == Sorted(values)[|values| / 2]
            && s.p50 <= s.p95 <= s.max && forall v | v in values :: v <= s.max
  {
    hide Rank, Sorted;
    SortedAscends(values);
    SortedPermutes(values);
    RanksAreNearest(|values|);
    var sorted := Sorted(values);
    forall v ensures v in sorted <==> v in values {
      assert v in sorted <==> v in multiset(sorted);
      assert v in values <==> v in multiset(values);
    }
    forall v | v in values ensures v <= sorted[|sorted| - 1] {
      var i :| 0 <= i < |sorted| && sorted[i] == v;
    }
    assert Summary(values).p50 == sorted[Rank(|sorted|, 1, 2)] && Summary(values).p95 == sorted[Rank(|sorted|, 19, 20)];
  }

  // ---- The whole sink ----------------------------------------------------------------

  /** A record's kind: its text member `kind`, else `unknown`. */
  function KindOf(record: Json): string {
    if record.Object? then KindAmong(record.members) else "unknown"
  }

  function KindAmong(members: seq<Member>): string {
    if members == [] then "unknown"
    else if members[0].key == "kind" then (if members[0].value.Text? then members[0].value.text else "unknown")
    else KindAmong(members[1..])
  }

  /** The records of one kind, in the sink's order; `None` is a line that does not parse. */
  function OfKind(lines: seq<Option<Json>>, kind: string): seq<Json> {
    if lines == [] then []
    else
      var last := lines[|lines| - 1];
      OfKind(lines[..|lines| - 1], kind) + (if last.Some? && KindOf(last.value) == kind then [last.value] else [])
  }

  /** The most recent `last` of them, when a limit is given. */
  function Recent(records: seq<Json>, last: Option<nat>): seq<Json> {
    if last.Some? && |records| > last.value then records[|records| - last.value..] else records
  }

  function Pick(leaves: seq<Leaf>, field: string): seq<real> {
    if leaves == [] then []
    else Pick(leaves[..|leaves| - 1], field) +
         (if leaves[|leaves| - 1].field == field then [leaves[|leaves| - 1].value] else [])
  }

  /** All the values of one field, in order. */
  function ValuesAt(records: seq<Json>, field: string): seq<real> {
    if records == [] then []
    else ValuesAt(records[..|records| - 1], field) + Pick(Leaves("", records[|records| - 1]), field)
  }

  datatype KindStats = KindStats(records: nat, fields: map<string, FieldStats>)

  /** What the statistics of one kind should be: one entry for each field that occurs. */
  ghost predicate Describes(stats: KindStats, records: seq<Json>) {
    && stats.records == |records|
    && (forall f :: f in stats.fields <==> ValuesAt(records, f) != [])
    && (forall f | f in stats.fields :: stats.fields[f] == Summary(ValuesAt(records, f)))
  }

  predicate Wanted(kind: Option<string>, k: string) {
    kind.None? || kind.value == k
  }

  /** What aggregating a sink should give: one entry for each wanted kind that occurs, over its
      most recent records. */
  ghost predicate Aggregates(stats: map<string, KindStats>, lines: seq<Option<Json>>, kind: Option<string>,
                             last: Option<nat>) {
    && (forall k :: k in stats <==> Wanted(kind, k) && OfKind(lines, k) != [])
    && (forall k | k in stats :: Describes(stats[k], Recent(OfKind(lines, k), last)))
  }

  lemma {:induction false} OfKindConcat(a: seq<Option<Json>>, b: seq<Option<Json>>, k: string)
    ensures OfKind(a + b, k) == OfKind(a, k) + OfKind(b, k)
  {
    if b == [] {
      assert a + b == a;
    } else {
      assert (a + b)[..|a + b| - 1] == a + b[..|b| - 1];
      OfKindConcat(a, b[..|b| - 1], k);
    }
  }

  /** Two lines that are not both records of one kind. */
  predicate Independent(x: Option<Json>, y: Option<Json>) {
    x.None? || y.None? || KindOf(x.value) != KindOf(y.value)
  }

  lemma SwappedOfKind(x: Option<Json>, y: Option<Json>, k: string)
    requires Independent(x, y)
    ensures OfKind([x, y], k) == OfKind([y, x], k)
  {
    hide KindOf;
    assert [x, y][..1] == [x] && [y, x][..1] == [y] && [x][..0] == [] && [y][..0] == [];
  }

  lemma DescribedAlike(x: KindStats, y: KindStats, records: seq<Json>)
    requires Describes(x, records) && Describes(y, records)
    ensures x == y
  {
    hide Summary, ValuesAt;
    assert x.fields.Keys == y.fields.Keys;
  }

  /** How kinds interleave does not matter: two sinks that hold the same records of each kind,
      in the same order, aggregate alike. */
  lemma InterleavingIsIrrelevant(a: seq<Option<Json>>, b: seq<Option<Json>>, kind: Option<string>, last: Option<nat>,
                                 s: map<string, KindStats>, t: map<string, KindStats>)
    requires forall k :: OfKind(a, k) == OfKind(b, k)
    requires Aggregates(s, a, kind, last) && Aggregates(t, b, kind, last)
    ensures s == t
  {
    hide OfKind, Describes, Recent, Wanted;
    assert s.Keys == t.Keys;
    forall k | k in s ensures s[k] == t[k] {
      DescribedAlike(s[k], t[k], Recent(OfKind(a, k), last));
    }
  }

  /** Swapping two neighbouring lines that are not of one kind keeps the records of each. */
  lemma SwapKeepsKinds(before: seq<Option<Json>>, x: Option<Json>, y: Option<Json>, after: seq<Option<Json>>, k: string)
    requires Independent(x, y)
    ensures OfKind(before + [x, y] + after, k) == OfKind(before + [y, x] + after, k)
  {
    hide OfKind, Independent;
    OfKindConcat(before + [x, y], after, k);
    OfKindConcat(before + [y, x], after, k);
    OfKindConcat(before, [x, y], k);
    OfKindConcat(before, [y, x], k);
    SwappedOfKind(x, y, k);
  }

  lemma {:induction false} PickAtMostOne(leaves: seq<Leaf>, field: string)
    requires FieldsDistinct(leaves)
    ensures |Pick(leaves, field)| <= 1
    ensures Pick(leaves, field) != [] ==> exists i :: 0 <= i < |leaves| && leaves[i].field == field
  {
    if leaves != [] {
      PickAtMostOne(leaves[..|leaves| - 1], field);
    }
  }

  /** A field's count is at most the number of records, when no record carries a field
      twice. */
  lemma {:induction false} CountWithinRecords(records: seq<Json>, field: string)
    requires forall i | 0 <= i < |records| :: FieldsDistinct(Leaves("", records[i]))
    ensures |ValuesAt(records, field)| <= |records|
  {
    if records != [] {
      CountWithinRecords(records[..|records| - 1], field);
      PickAtMostOne(Leaves("", records[|records| - 1]), field);
    }
  }

  // As the code does it ----------------------------------------------------------------

  /** Append each leaf's value to its field's values. */
  method FlattenNumbers(leaves: seq<Leaf>, out: map<string, seq<real>>, ghost before: seq<Json>, ghost record: Json)
    returns (all: map<string, seq<real>>)
    requires leaves == Leaves("", record)
    requires forall f :: (f in out <==> ValuesAt(before, f) != []) && (f in out ==> out[f] == ValuesAt(before, f))
    ensures var now := before + [record];
            forall f :: (f in all <==> ValuesAt(now, f) != []) && (f in all ==> all[f] == ValuesAt(now, f))
  {
    hide ValuesAt, Pick, Leaves;
    all := out;
    forall f ensures Pick(leaves[..0], f) == [] { NothingPicked(f); }
    for i := 0 to |leaves|
      invariant forall f ::
                  var values := ValuesAt(before, f) + Pick(leaves[..i], f);
                  (f in all <==> values != []) && (f in all ==> all[f] == values)
    {
      var leaf := leaves[i];
      assert leaves[..i + 1] == leaves[..i] + [leaf];
      forall f ensures ValuesAt(before, f) + Pick(leaves[..i + 1], f) ==
                       if leaf.field == f then ValuesAt(before, f) + Pick(leaves[..i], f) + [leaf.value]
                       else ValuesAt(before, f) + Pick(leaves[..i], f)
      {
        OneMorePick(leaves[..i], leaf, f);
      }
      var values := if leaf.field in all then all[leaf.field] else [];
      all := all[leaf.field := values + [leaf.value]];
    }
    assert leaves[..|leaves|] == leaves;
    forall f ensures ValuesAt(before + [record], f) == ValuesAt(before, f) + Pick(leaves, f) {
      OneMoreRecord(before, record, f);
    }
  }

  lemma NothingPicked(f: string)
    ensures Pick([], f) == []
  {
  }

  lemma OneMorePick(leaves: seq<Leaf>, leaf: Leaf, f: string)
    ensures Pick(leaves + [leaf], f) == if leaf.field == f then Pick(leaves, f) + [leaf.value] else Pick(leaves, f)
  {
    assert (leaves + [leaf])[..|leaves|] == leaves;
  }

  lemma OneMoreRecord(before: seq<Json>, record: Json, f: string)
    ensures ValuesAt(before + [record], f) == ValuesAt(before, f) + Pick(Leaves("", record), f)
  {
    assert (before + [record])[..|before|] == before;
  }

  /** The statistics of one kind's records. */
  method Describe(records: seq<Json>) returns (stats: KindStats)
    ensures Describes(stats, records)
  {
    hide ValuesAt, Leaves, Summary;
    var values: map<string, seq<real>> := map[];
    forall f ensures ValuesAt([], f) == [] { NoValues(f); }
    for i := 0 to |records|
      invariant forall f ::
                  && (f in values <==> ValuesAt(records[..i], f) != [])
                  && (f in values ==> values[f] == ValuesAt(records[..i], f))
    {
      assert records[..i + 1] == records[..i] + [records[i]];
      values := FlattenNumbers(Leaves("", records[i]), values, records[..i], records[i]);
    }
    assert records[..|records|] == records;
    stats := KindStats(|records|, map f | f in values :: Summary(values[f]));
  }

  lemma NoValues(f: string)
    ensures ValuesAt([], f) == []
  {
  }

  lemma OneMoreLine(lines: seq<Option<Json>>, line: Option<Json>, k: string)
    ensures OfKind(lines + [line], k) ==
            if line.Some? && KindOf(line.value) == k then OfKind(lines, k) + [line.value] else OfKind(lines, k)
  {
    assert (lines + [line])[..|lines|] == lines;
  }

  /** The records of each wanted kind. */
  method GroupByKind(lines: seq<Option<Json>>, kind: Option<string>) returns (byKind: map<string, seq<Json>>)
    ensures forall k :: k in byKind <==> Wanted(kind, k) && OfKind(lines, k) != []
    ensures forall k | k in byKind :: byKind[k] == OfKind(lines, k)
  {
    hide KindOf, OfKind;
    byKind := map[];
    forall k ensures OfKind([], k) == [] { NoLines(k); }
    for i := 0 to |lines|
      invariant forall k :: k in byKind <==> Wanted(kind, k) && OfKind(lines[..i], k) != []
      invariant forall k | k in byKind :: byKind[k] == OfKind(lines[..i], k)
    {
      assert lines[..i + 1] == lines[..i] + [lines[i]];
      forall k { OneMoreLine(lines[..i], lines[i], k); }
      if lines[i].Some? {
        var recordKind := KindOf(lines[i].value);
        if Wanted(kind, recordKind) {
          byKind := byKind[recordKind := (if recordKind in byKind then byKind[recordKind] else []) + [lines[i].value]];
        }
      }
    }
    assert lines[..|lines|] == lines;
  }

  lemma NoLines(k: string)
    ensures OfKind([], k) == []
  {
  }

  /** Group the records of each wanted kind, keep the most recent ones, and describe them. */
  method Aggregate(lines: seq<Option<Json>>, kind: Option<string>, last: Option<nat>)
    returns (stats: map<string, KindStats>)
    ensures Aggregates(stats, lines, kind, last)
  {
    hide KindOf, OfKind, Describes, Recent, Wanted;
    var byKind := GroupByKind(lines, kind);
    stats := map[];
    var rest := byKind.Keys;
    while rest != {}
      invariant rest <= byKind.Keys && stats.Keys == byKind.Keys - rest
      invariant forall k | k in stats :: Describes(stats[k], Recent(byKind[k], last))
      decreases rest
    {
      var k :| k in rest;
      var described := Describe(Recent(byKind[k], last));
      stats, rest := stats[k := described], rest - {k};
    }
  }
}
