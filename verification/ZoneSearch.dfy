/**
  scan_available_timezones of tools/pg_initdb/findtimezone.cpp: the recursive
  search of the time zone directories for the best matching zone.
 */
module ZoneSearch {
  import opened Basics
  import opened Buffers

  const TZ_STRLEN_MAX := 255

  /** A directory that cannot be read has no entries; what cannot be examined is neither file nor directory. */
  datatype Node = File | Directory(entries: seq<Named>) | Unknown
  datatype Named = Named(name: string, node: Node)

  /** The score of a zone name; -1 if it cannot be loaded, as when it is too long. */
  type Score = string -> int

  ghost predicate Scores(score: Score) {
    forall z :: score(z) >= -1 && (|z| > TZ_STRLEN_MAX ==> score(z) == -1)
  }

  // ---------------------------------------------------------------------
  // Zone names and their order

  /** strcmp(a, b) < 0 */
  predicate Less(a: string, b: string) {
    if a == "" then b != ""
    else b != "" && (a[0] < b[0] || (a[0] == b[0] && Less(a[1..], b[1..])))
  }

  /** How ties are broken. */
  predicate Shorter(a: string, b: string) { |a| < |b| || (|a| == |b| && Less(a, b)) }

  predicate Beats(a: string, b: string, score: Score) {
    score(a) > score(b) || (score(a) == score(b) && Shorter(a, b))
  }

  lemma {:induction false} LessOrder(a: string, b: string, c: string)
    ensures !(Less(a, b) && Less(b, a)) && (a == b || Less(a, b) || Less(b, a))
    ensures Less(a, b) && Less(b, c) ==> Less(a, c)
  {
    if a != "" && b != "" {
      assert a == [a[0]] + a[1..] && b == [b[0]] + b[1..];
      LessOrder(a[1..], b[1..], if c == "" then "" else c[1..]);
    }
  }

  /** Any two names are strictly ordered one way, and the order is transitive. */
  lemma BeatsOrder(a: string, b: string, c: string, score: Score)
    ensures !(Beats(a, b, score) && Beats(b, a, score)) && (a == b || Beats(a, b, score) || Beats(b, a, score))
    ensures Beats(a, b, score) && Beats(b, c, score) ==> Beats(a, c, score)
  {
    LessOrder(a, b, c);
  }

  // ---------------------------------------------------------------------
  // The search as a fold

  predicate Hidden(name: string) { name != "" && name[0] == '.' }

  function Path(dir: string, name: string): (r: string) { dir + ("/" + name) }

  /** The zone names below a directory, in the order of the listing; they are paths without the first `sub` bytes. */
  function Zones(es: seq<Named>, dir: string, sub: nat): (zs: seq<string>)
    requires sub <= |dir| + 1
  {
    if es == [] then [] else ZonesOf(es[0], dir, sub) + Zones(es[1..], dir, sub)
  }

  function ZonesOf(e: Named, dir: string, sub: nat): (zs: seq<string>)
    requires sub <= |dir| + 1
  {
    if Hidden(e.name) then []
    else
      match e.node
      case File => [Path(dir, e.name)[sub..]]
      case Directory(es) => Zones(es, Path(dir, e.name), sub)
      case Unknown => []
  }

  datatype Best = Best(score: int, name: string)

  function Consider(best: Best, zone: string, score: Score): (r: Best) {
    if score(zone) > best.score then Best(score(zone), zone)
    else if score(zone) == best.score && Shorter(zone, best.name) then Best(best.score, zone)
    else best
  }

  function Pick(zs: seq<string>, best: Best, score: Score): (r: Best) {
    if zs == [] then best else Pick(zs[1..], Consider(best, zs[0], score), score)
  }

  const NOTHING := Best(-1, "")

  // ---------------------------------------------------------------------
  // The result does not depend on the order

  /** No zone can be loaded, or it is a zone that beats all others. */
  predicate IsBest(r: Best, zs: seq<string>, score: Score) {
    if r.score == -1 then r == NOTHING && forall z :: z in zs ==> score(z) == -1
    else r.name in zs && score(r.name) == r.score && forall z :: z in zs ==> z == r.name || Beats(r.name, z, score)
  }

  lemma {:induction false} PickIsBest(seen: seq<string>, zs: seq<string>, best: Best, score: Score)
    requires Scores(score) && IsBest(best, seen, score)
    ensures IsBest(Pick(zs, best, score), seen + zs, score)
    decreases |zs|
  {
    hide Less, Shorter;
    if zs == [] {
      Units(seen);
    } else {
      ConsiderIsBest(seen, zs[0], best, score);
      PickIsBest(seen + [zs[0]], zs[1..], Consider(best, zs[0], score), score);
      assert seen + [zs[0]] + zs[1..] == seen + zs;
    }
  }

  lemma ConsiderIsBest(seen: seq<string>, z: string, best: Best, score: Score)
    requires Scores(score) && IsBest(best, seen, score)
    ensures IsBest(Consider(best, z, score), seen + [z], score)
  {
    hide Less, Shorter;
    NoneShorter(z);
    forall w | w in seen ensures best.score >= 0 && Beats(z, best.name, score) ==> Beats(z, w, score) || z == w {
      BeatsOrder(z, best.name, w, score);
    }
    BeatsOrder(best.name, z, z, score);
  }

  lemma NoneShorter(z: string)
    ensures !Shorter(z, "")
  {
  }

  /** The best of a set of zones is unique. */
  lemma BestIsUnique(r: Best, zs: seq<string>, r': Best, zs': seq<string>, score: Score)
    requires Scores(score) && IsBest(r, zs, score) && IsBest(r', zs', score)
    requires forall z :: z in zs <==> z in zs'
    ensures r == r'
  {
    BeatsOrder(r.name, r'.name, "", score);
  }

  /** Each entry of a is in b, wherever b lists it, and likewise in its directories. */
  predicate Covered(a: seq<Named>, b: seq<Named>) {
    forall i :: 0 <= i < |a| ==> exists j :: 0 <= j < |b| && CoveredEntry(a[i], b[j])
  }

  predicate CoveredEntry(x: Named, y: Named) {
    && x.name == y.name
    && match x.node
       case File => y.node.File?
       case Directory(es) => y.node.Directory? && Covered(es, y.node.entries)
       case Unknown => y.node.Unknown?
  }

  /** The same tree, with directories listed in other orders. */
  predicate Relisted(a: seq<Named>, b: seq<Named>) { Covered(a, b) && Covered(b, a) }

  lemma {:induction false} ZoneListed(es: seq<Named>, i: nat, dir: string, sub: nat, z: string)
    requires sub <= |dir| + 1 && i < |es| && z in ZonesOf(es[i], dir, sub)
    ensures z in Zones(es, dir, sub)
  {
    if i > 0 { ZoneListed(es[1..], i - 1, dir, sub, z); }
  }

  lemma {:induction false} ZoneFrom(es: seq<Named>, dir: string, sub: nat, z: string) returns (i: nat)
    requires sub <= |dir| + 1 && z in Zones(es, dir, sub)
    ensures i < |es| && z in ZonesOf(es[i], dir, sub)
  {
    if z in ZonesOf(es[0], dir, sub) {
      i := 0;
    } else {
      i := ZoneFrom(es[1..], dir, sub, z);
      i := i + 1;
    }
  }

  lemma {:induction false} CoveredZone(a: seq<Named>, b: seq<Named>, dir: string, sub: nat, z: string)
    requires sub <= |dir| + 1 && Covered(a, b) && z in Zones(a, dir, sub)
    ensures z in Zones(b, dir, sub)
    decreases a
  {
    var i := ZoneFrom(a, dir, sub, z);
    var j :| 0 <= j < |b| && CoveredEntry(a[i], b[j]);
    if a[i].node.Directory? {
      CoveredZone(a[i].node.entries, b[j].node.entries, Path(dir, a[i].name), sub, z);
    }
    ZoneListed(b, j, dir, sub, z);
  }

  /** However the directories are listed, the search finds the same zone: the best one. */
  lemma OrderDoesNotMatter(a: seq<Named>, b: seq<Named>, dir: string, sub: nat, score: Score)
    requires Scores(score) && sub <= |dir| + 1 && Relisted(a, b)
    ensures Pick(Zones(a, dir, sub), NOTHING, score) == Pick(Zones(b, dir, sub), NOTHING, score)
    ensures IsBest(Pick(Zones(a, dir, sub), NOTHING, score), Zones(a, dir, sub), score)
  {
    hide Covered, Zones, Pick;
    var zs, zs' := Zones(a, dir, sub), Zones(b, dir, sub);
    PickIsBest([], zs, NOTHING, score);
    PickIsBest([], zs', NOTHING, score);
    Units(zs);
    Units(zs');
    forall z ensures z in zs <==> z in zs' {
      if z in zs { CoveredZone(a, b, dir, sub, z); }
      if z in zs' { CoveredZone(b, a, dir, sub, z); }
    }
    BestIsUnique(Pick(zs, NOTHING, score), zs, Pick(zs', NOTHING, score), zs', score);
  }

  // ---------------------------------------------------------------------
  // Which zones there are

  /** The names lead from the entries through directories to a file. */
  predicate Leads(es: seq<Named>, way: seq<string>) {
    way != [] && exists i :: 0 <= i < |es| && LeadsBy(es[i], way)
  }

  /** The same for one entry. */
  predicate LeadsBy(e: Named, way: seq<string>)
    requires way != []
  {
    e.name == way[0] &&
    match e.node
    case File => |way| == 1
    case Directory(es) => Leads(es, way[1..])
    case Unknown => false
  }

  /** No name has a dot in front. */
  predicate Visible(way: seq<string>) { forall k :: 0 <= k < |way| ==> way[k] == "" || way[k][0] != '.' }

  /** The names with a slash in front of each. */
  function Slashed(way: seq<string>): (r: string) {
    if way == [] then "" else "/" + way[0] + Slashed(way[1..])
  }

  lemma SlashedFirst(dir: string, way: seq<string>)
    requires way != []
    ensures dir + Slashed(way) == Path(dir, way[0]) + Slashed(way[1..]) && |Slashed(way)| >= 1
    ensures |way| == 1 ==> dir + Slashed(way) == Path(dir, way[0])
  {
    Assoc(dir, "/" + way[0], Slashed(way[1..]));
  }

  lemma {:induction false} ListedLeads(es: seq<Named>, dir: string, sub: nat, z: string) returns (way: seq<string>)
    requires sub <= |dir| + 1 && z in Zones(es, dir, sub)
    ensures Leads(es, way) && Visible(way) && |Slashed(way)| >= 1 && z == (dir + Slashed(way))[sub..]
    decreases es
  {
    var i := ZoneFrom(es, dir, sub, z);
    var e := es[i];
    if e.node.File? {
      way := [e.name];
    } else {
      var below := ListedLeads(e.node.entries, Path(dir, e.name), sub, z);
      way := [e.name] + below;
      assert way[1..] == below;
    }
    SlashedFirst(dir, way);
    assert LeadsBy(e, way);
  }

  lemma {:induction false} LeadsIsListed(es: seq<Named>, way: seq<string>, dir: string, sub: nat)
    requires sub <= |dir| + 1 && Leads(es, way) && Visible(way)
    ensures |Slashed(way)| >= 1 && (dir + Slashed(way))[sub..] in Zones(es, dir, sub)
    decreases es
  {
    var i :| 0 <= i < |es| && LeadsBy(es[i], way);
    SlashedFirst(dir, way);
    assert !Hidden(way[0]);
    if es[i].node.Directory? {
      LeadsIsListed(es[i].node.entries, way[1..], Path(dir, way[0]), sub);
    }
    ZoneListed(es, i, dir, sub, (dir + Slashed(way))[sub..]);
  }

  /** There is a way to a file by names without a dot in front, and z is its path without the first `sub` bytes. */
  ghost predicate Reachable(es: seq<Named>, dir: string, sub: nat, z: string)
    requires sub <= |dir| + 1
  {
    exists way :: Leads(es, way) && Visible(way) && |Slashed(way)| >= 1 && z == (dir + Slashed(way))[sub..]
  }

  /** The search lists exactly the zones that can be reached in the tree. */
  lemma ZonesAreReachable(es: seq<Named>, dir: string, sub: nat, z: string)
    requires sub <= |dir| + 1
    ensures z in Zones(es, dir, sub) <==> Reachable(es, dir, sub, z)
  {
    hide Leads, Slashed, Zones;
    if z in Zones(es, dir, sub) { var way := ListedLeads(es, dir, sub, z); }
    if Reachable(es, dir, sub, z) {
      var way :| Leads(es, way) && Visible(way) && |Slashed(way)| >= 1 && z == (dir + Slashed(way))[sub..];
      LeadsIsListed(es, way, dir, sub);
    }
  }

  /** The first byte in which the names differ is smaller in a, or a is a proper front of b. */
  ghost predicate Precedes(a: string, b: string) {
    a < b || exists k :: 0 <= k < |a| && k < |b| && a[..k] == b[..k] && a[k] < b[k]
  }

  lemma PrecedesCons(c: char, a: string, b: string)
    ensures Precedes([c] + a, [c] + b) <==> Precedes(a, b)
  {
    var a', b' := [c] + a, [c] + b;
    assert a' < b' <==> a < b by { assert a'[1..] == a && b'[1..] == b; }
    if k :| 0 <= k < |a| && k < |b| && a[..k] == b[..k] && a[k] < b[k] {
      assert a'[..k + 1] == [c] + a[..k] && b'[..k + 1] == [c] + b[..k] && a'[k + 1] < b'[k + 1];
    }
    if k :| 0 <= k < |a'| && k < |b'| && a'[..k] == b'[..k] && a'[k] < b'[k] {
      assert k > 0;
      assert a[..k - 1] == a'[..k][1..] && b[..k - 1] == b'[..k][1..] && a[k - 1] < b[k - 1];
    }
  }

  lemma FirstDecides(a: string, b: string)
    requires a != "" && b != "" && a[0] != b[0]
    ensures Precedes(a, b) <==> a[0] < b[0]
  {
    assert a[..0] == b[..0];
    forall k | 0 < k <= |a| && k <= |b| ensures a[..k] != b[..k] { assert a[..k][0] == a[0] && b[..k][0] == b[0]; }
  }

  lemma {:induction false} LessIsPrecedes(a: string, b: string)
    ensures Less(a, b) <==> Precedes(a, b)
  {
    hide Precedes;
    if a == "" || b == "" {
      NothingDecides(a, b);
    } else if a[0] == b[0] {
      LessIsPrecedes(a[1..], b[1..]);
      PrecedesCons(a[0], a[1..], b[1..]);
      assert a == [a[0]] + a[1..] && b == [b[0]] + b[1..];
    } else {
      FirstDecides(a, b);
    }
  }

  lemma NothingDecides(a: string, b: string)
    requires a == "" || b == ""
    ensures Precedes(a, b) <==> a == "" && b != ""
  {
  }

  /** A higher score wins; of equal scores the shorter name, and of equally long ones the first in strcmp's order. */
  ghost predicate Wins(a: string, b: string, score: Score) {
    || score(a) > score(b)
    || (score(a) == score(b) && (|a| < |b| || (|a| == |b| && Precedes(a, b))))
  }

  lemma BeatsIsWins(a: string, b: string, score: Score)
    ensures Beats(a, b, score) <==> Wins(a, b, score)
  {
    LessIsPrecedes(a, b);
  }

  /** No reachable zone can be loaded, or it is one that wins over all others. */
  ghost predicate BestBelow(r: Best, es: seq<Named>, dir: string, sub: nat, score: Score)
    requires sub <= |dir| + 1
  {
    if r.score == -1 then r == NOTHING && forall z :: Reachable(es, dir, sub, z) ==> score(z) == -1
    else
      && Reachable(es, dir, sub, r.name) && score(r.name) == r.score
      && forall z :: Reachable(es, dir, sub, z) ==> z == r.name || Wins(r.name, z, score)
  }

  /** What the search finds is the best zone of the tree. */
  lemma SearchFindsBest(es: seq<Named>, dir: string, sub: nat, score: Score)
    requires sub <= |dir| + 1 && Scores(score)
    ensures BestBelow(Pick(Zones(es, dir, sub), NOTHING, score), es, dir, sub, score)
  {
    hide Zones, Pick, Reachable, Beats, Wins;
    var best := Pick(Zones(es, dir, sub), NOTHING, score);
    PickIsBest([], Zones(es, dir, sub), NOTHING, score);
    forall z ensures Beats(best.name, z, score) <==> Wins(best.name, z, score) { BeatsIsWins(best.name, z, score); }
    Units(Zones(es, dir, sub));
    forall z ensures z in Zones(es, dir, sub) <==> Reachable(es, dir, sub, z) {
      ZonesAreReachable(es, dir, sub, z);
    }
  }

  // ---------------------------------------------------------------------
  // The code

  /** Every path below the directory, with its NUL, fits into a buffer of the size. */
  predicate Fits(es: seq<Named>, dir: nat, size: nat) {
    forall i :: 0 <= i < |es| ==> FitsEntry(es[i], dir, size)
  }

  predicate FitsEntry(e: Named, dir: nat, size: nat) {
    NoNul(e.name) && dir + 1 + |e.name| < size &&
    (e.node.Directory? ==> Fits(e.node.entries, dir + 1 + |e.name|, size))
  }

  lemma {:induction false} PickConcat(a: seq<string>, b: seq<string>, best: Best, score: Score)
    ensures Pick(a + b, best, score) == Pick(b, Pick(a, best, score), score)
  {
    hide Consider;
    if a == [] {
      Units(b);
    } else {
      PickConcat(a[1..], b, Consider(best, a[0], score), score);
      assert (a + b)[1..] == a[1..] + b;
    }
  }

  /** strlcpy into bestzonename. */
  function Copied(zone: string): (r: string) { if |zone| > TZ_STRLEN_MAX then zone[..TZ_STRLEN_MAX] else zone }

  /** The name fits its buffer. */
  predicate Sound(best: Best) { best.score >= -1 && |best.name| <= TZ_STRLEN_MAX }

  /** snprintf of a name behind the directory. */
  method AddName(tzdir: array<char>, len: nat, name: string, ghost dir: string)
    requires HasText(tzdir, 0, dir) && len == |dir| && NoNul(name) && len + 1 + |name| < tzdir.Length
    modifies tzdir
    ensures HasText(tzdir, 0, Path(dir, name))
  {
    var end := Append(tzdir, len, "/" + name, 0, dir);
    tzdir[end] := '\0';
  }

  /** Tests one file, whose path is in the buffer. */
  method TestFile(tzdir: array<char>, sub: nat, best0: Best, score: Score, ghost path: string) returns (best: Best)
    requires HasText(tzdir, 0, path) && sub <= |path| && Scores(score) && Sound(best0)
    ensures best == Consider(best0, path[sub..], score) && Sound(best)
  {
    var len := Strlen(tzdir, 0, path);
    assert tzdir[sub..len] == path[sub..];
    var zone := tzdir[sub..len];
    best := best0;
    if score(zone) > best.score {
      best := Best(score(zone), Copied(zone));
    } else if score(zone) == best.score {
      if |zone| < |best.name| || (|zone| == |best.name| && Less(zone, best.name)) {
        best := Best(best.score, Copied(zone));
      }
    }
  }

  /** The search considers every zone below the directory, and leaves the directory's path in the buffer. */
  method ScanAvailableTimezones(tzdir: array<char>, sub: nat, names: seq<Named>, score: Score, best0: Best,
                                ghost dir: string)
    returns (best: Best)
    requires HasText(tzdir, 0, dir) && sub <= |dir| + 1 && Fits(names, |dir|, tzdir.Length)
    requires Scores(score) && Sound(best0)
    modifies tzdir
    ensures HasText(tzdir, 0, dir)
    ensures best == Pick(Zones(names, dir, sub), best0, score) && Sound(best)
    ensures best0 == NOTHING ==> BestBelow(best, names, dir, sub, score)
    decreases names
  {
    hide HasText, Consider, Pick, Scores, BestBelow;
    SearchFindsBest(names, dir, sub, score);
    var len := Strlen(tzdir, 0, dir);
    best := best0;
    for i := 0 to |names|
      invariant HasText(tzdir, 0, dir) && Sound(best)
      invariant Pick(Zones(names, dir, sub), best0, score) == Pick(Zones(names[i..], dir, sub), best, score)
    {
      var e := names[i];
      PickFirst(names, i, dir, sub, best, score);
      PickNone([], dir, sub, best, score);
      if !Hidden(e.name) {
        AddName(tzdir, len, e.name, dir);
        match e.node {
          case Unknown =>
          case Directory(es) =>
            best := ScanAvailableTimezones(tzdir, sub, es, score, best, Path(dir, e.name));
          case File =>
            PickOne(Path(dir, e.name)[sub..], best, score);
            best := TestFile(tzdir, sub, best, score, Path(dir, e.name));
        }
        Restore(tzdir, len, Path(dir, e.name), dir);
      }
    }
    PickNone(names, dir, sub, best, score);
  }

  method Restore(tzdir: array<char>, len: nat, ghost path: string, ghost dir: string)
    requires HasText(tzdir, 0, path) && dir <= path && len == |dir|
    modifies tzdir
    ensures HasText(tzdir, 0, dir)
  {
    assert NoNul(dir);
    tzdir[len] := '\0';
  }

  lemma PickFirst(names: seq<Named>, i: nat, dir: string, sub: nat, best: Best, score: Score)
    requires sub <= |dir| + 1 && i < |names|
    ensures Pick(Zones(names[i..], dir, sub), best, score) ==
            Pick(Zones(names[i + 1..], dir, sub), Pick(ZonesOf(names[i], dir, sub), best, score), score)
  {
    hide Pick, ZonesOf;
    PickConcat(ZonesOf(names[i], dir, sub), Zones(names[i + 1..], dir, sub), best, score);
    assert names[i..][1..] == names[i + 1..];
  }

  lemma PickOne(z: string, best: Best, score: Score)
    ensures Pick([z], best, score) == Consider(best, z, score)
  {
  }

  lemma PickNone(names: seq<Named>, dir: string, sub: nat, best: Best, score: Score)
    requires sub <= |dir| + 1
    ensures Pick(Zones(names[|names|..], dir, sub), best, score) == best == Pick([], best, score)
  {
  }
}
