// Last-writer-wins maps in general: folding frames of versioned entries into a map, one key at a time,
// and what the fold is a maximum of.
module Lww {
  import opened Units

  // ---- Text compares by code units ------------------------------------------------------------------

  predicate Less(a: Text, b: Text) {
    if |b| == 0 then false
    else if |a| == 0 then true
    else if a[0] != b[0] then a[0] < b[0]
    else Less(a[1..], b[1..])
  }

  lemma {:induction false} LessTransitive(a: Text, b: Text, c: Text)
    requires Less(a, b) && Less(b, c)
    ensures Less(a, c)
  {
    if |a| > 0 && a[0] == b[0] && b[0] == c[0] {
      LessTransitive(a[1..], b[1..], c[1..]);
    }
  }

  lemma {:induction false} LessIrreflexive(a: Text)
    ensures !Less(a, a)
  {
    if |a| > 0 {
      LessIrreflexive(a[1..]);
    }
  }

  lemma {:induction false} LessTotal(a: Text, b: Text)
    ensures Less(a, b) || Less(b, a) || a == b
  {
    if |a| > 0 && |b| > 0 && a[0] == b[0] {
      LessTotal(a[1..], b[1..]);
      assert a == [a[0]] + a[1..] && b == [b[0]] + b[1..];
    }
  }

  // ---- Names every JavaScript object already has -------------------------------------------------------

  // The maps are plain objects, so looking up one of these in a map without such an entry does not come
  // back undefined: it finds the inherited property, which carries no version to compare against.
  const INHERITED: set<Text> := {
    Plain("constructor"), Plain("hasOwnProperty"), Plain("isPrototypeOf"), Plain("propertyIsEnumerable"),
    Plain("toLocaleString"), Plain("toString"), Plain("valueOf"), Plain("__proto__"), Plain("__defineGetter__"),
    Plain("__defineSetter__"), Plain("__lookupGetter__"), Plain("__lookupSetter__")
  }

  // ---- Frames and folds ---------------------------------------------------------------------------------

  // One day: versions further ahead of the adopting device's clock are refused.
  const MAX_FUTURE_MS := 86400000.0

  // A received map, and the receiver's clock at the time.
  datatype Frame<E> = Frame(entries: map<Text, E>, now: real)

  predicate InTime<E>(e: E, version: E -> real, now: real) {
    version(e) <= now + MAX_FUTURE_MS
  }

  // Whether a device whose map is `local` takes the incoming entry for a key.
  predicate Takes<E>(local: map<Text, E>, key: Text, e: E, now: real, version: E -> real, beats: (E, E) -> bool) {
    && InTime(e, version, now)
    && if key in local then beats(e, local[key]) else key !in INHERITED
  }

  function Adopt<E>(local: map<Text, E>, f: Frame<E>, version: E -> real, beats: (E, E) -> bool): map<Text, E> {
    local + map k | k in f.entries && Takes(local, k, f.entries[k], f.now, version, beats) :: f.entries[k]
  }

  // One key after adopting.
  lemma AdoptAt<E>(local: map<Text, E>, f: Frame<E>, k: Text, version: E -> real, beats: (E, E) -> bool)
    ensures var r := Adopt(local, f, version, beats);
      && (k in r <==> k in local || (k in f.entries && Takes(local, k, f.entries[k], f.now, version, beats)))
      && (k in r ==> r[k] == if k in f.entries && Takes(local, k, f.entries[k], f.now, version, beats)
        then f.entries[k] else local[k])
  {
    hide Takes;
  }

  // Adopting entry by entry: one more entry of the frame.
  lemma AdoptOne<E>(local: map<Text, E>, entries: map<Text, E>, rest: set<Text>, u: Text, now: real,
                    version: E -> real, beats: (E, E) -> bool)
    requires u in rest && u in entries
    ensures var before, after := Adopt(local, Frame(entries - rest, now), version, beats),
      Adopt(local, Frame(entries - (rest - {u}), now), version, beats);
      && (u in before <==> u in local) && (u in local ==> before[u] == local[u])
      && after == (if Takes(local, u, entries[u], now, version, beats) then before[u := entries[u]] else before)
  {
    hide Takes, Adopt;
    var less, more := entries - rest, entries - (rest - {u});
    var before, after := Adopt(local, Frame(less, now), version, beats), Adopt(local, Frame(more, now), version, beats);
    AdoptAt(local, Frame(less, now), u, version, beats);
    AdoptAt(local, Frame(more, now), u, version, beats);
    forall k | k != u
      ensures k in before <==> k in after
      ensures k in before ==> before[k] == after[k]
    {
      AdoptAt(local, Frame(less, now), k, version, beats);
      AdoptAt(local, Frame(more, now), k, version, beats);
      assert k in less <==> k in more;
    }
  }

  // The same from the other end: one more entry at the end of a frame.
  lemma AdoptMore<E>(local: map<Text, E>, entries: map<Text, E>, u: Text, e: E, now: real, version: E -> real,
                     beats: (E, E) -> bool)
    requires u !in entries
    ensures var before := Adopt(local, Frame(entries, now), version, beats);
      && (u in before <==> u in local) && (u in local ==> before[u] == local[u])
      && Adopt(local, Frame(entries[u := e], now), version, beats)
         == if Takes(local, u, e, now, version, beats) then before[u := e] else before
  {
    hide Takes, Adopt;
    var more := entries[u := e];
    var before, after := Adopt(local, Frame(entries, now), version, beats),
      Adopt(local, Frame(more, now), version, beats);
    AdoptAt(local, Frame(entries, now), u, version, beats);
    AdoptAt(local, Frame(more, now), u, version, beats);
    forall k | k != u
      ensures k in before <==> k in after
      ensures k in before ==> before[k] == after[k]
    {
      AdoptAt(local, Frame(entries, now), k, version, beats);
      AdoptAt(local, Frame(more, now), k, version, beats);
    }
  }

  // A changed map stays changed when another key is set, or one is set to something new.
  lemma StaysChanged<E>(local: map<Text, E>, before: map<Text, E>, u: Text, e: E)
    requires (u in before <==> u in local) && (u in local ==> before[u] == local[u] && local[u] != e)
    ensures before[u := e] != local
  {
  }

  lemma AdoptNone<E>(local: map<Text, E>, entries: map<Text, E>, now: real, version: E -> real, beats: (E, E) -> bool)
    ensures Adopt(local, Frame(entries - entries.Keys, now), version, beats) == local
  {
  }

  function Fold<E>(local: map<Text, E>, frames: seq<Frame<E>>, version: E -> real, beats: (E, E) -> bool)
    : map<Text, E>
  {
    if |frames| == 0 then local
    else Adopt(Fold(local, frames[..|frames| - 1], version, beats), frames[|frames| - 1], version, beats)
  }

  // Everything a key could end up as: the starting entry and every entry received in time.
  ghost predicate Candidate<E>(local: map<Text, E>, frames: seq<Frame<E>>, key: Text, e: E, version: E -> real) {
    || (key in local && local[key] == e)
    || exists i :: 0 <= i < |frames| && key in frames[i].entries && frames[i].entries[key] == e
                   && InTime(e, version, frames[i].now)
  }

  ghost predicate StrictOrder<E(!new)>(beats: (E, E) -> bool) {
    && (forall a :: !beats(a, a))
    && (forall a, b, c :: beats(a, b) && beats(b, c) ==> beats(a, c))
  }

  lemma CandidateGrows<E>(local: map<Text, E>, frames: seq<Frame<E>>, key: Text, e: E, version: E -> real)
    requires |frames| > 0
    ensures var n := |frames| - 1;
      Candidate(local, frames, key, e, version) <==>
        Candidate(local, frames[..n], key, e, version)
        || (key in frames[n].entries && frames[n].entries[key] == e && InTime(e, version, frames[n].now))
  {
    var n := |frames| - 1;
    assert forall i :: 0 <= i < n ==> frames[..n][i] == frames[i];
    if Candidate(local, frames[..n], key, e, version) && !(key in local && local[key] == e) {
      var i :| 0 <= i < n && key in frames[..n][i].entries && frames[..n][i].entries[key] == e
               && InTime(e, version, frames[..n][i].now);
      assert frames[i] == frames[..n][i];
    }
  }

  // The fold leaves each key at a candidate that no candidate beats, and has the key exactly when there is one.
  lemma {:induction false} FoldIsMaximal<E(!new)>(local: map<Text, E>, frames: seq<Frame<E>>, key: Text,
                                                  version: E -> real, beats: (E, E) -> bool)
    requires StrictOrder(beats) && (key in local || key !in INHERITED)
    ensures var r := Fold(local, frames, version, beats);
      && (key in r ==> Candidate(local, frames, key, r[key], version))
      && (forall e :: Candidate(local, frames, key, e, version) ==> key in r && !beats(e, r[key]))
    decreases |frames|
  {
    hide Candidate, InTime;
    if |frames| == 0 {
      NoFrames(local, frames, key, version);
    } else {
      var n := |frames| - 1;
      var mid, last := Fold(local, frames[..n], version, beats), frames[n];
      FoldIsMaximal(local, frames[..n], key, version, beats);
      FoldKeeps(local, frames[..n], key, version, beats);
      forall e
        ensures Candidate(local, frames, key, e, version) <==>
          Candidate(local, frames[..n], key, e, version)
          || (key in last.entries && last.entries[key] == e && InTime(e, version, last.now))
      {
        CandidateGrows(local, frames, key, e, version);
      }
    }
  }

  lemma NoFrames<E(!new)>(local: map<Text, E>, frames: seq<Frame<E>>, key: Text, version: E -> real)
    requires frames == []
    ensures forall e :: Candidate(local, frames, key, e, version) <==> key in local && local[key] == e
  {
  }

  lemma {:induction false} FoldKeeps<E>(local: map<Text, E>, frames: seq<Frame<E>>, key: Text,
                                       version: E -> real, beats: (E, E) -> bool)
    ensures key in local ==> key in Fold(local, frames, version, beats)
    decreases |frames|
  {
    if |frames| > 0 {
      FoldKeeps(local, frames[..|frames| - 1], key, version, beats);
    }
  }

  // An inherited name that is not there already is never adopted.
  lemma {:induction false} InheritedNeverAdopted<E>(local: map<Text, E>, frames: seq<Frame<E>>, key: Text,
                                                    version: E -> real, beats: (E, E) -> bool)
    requires key !in local && key in INHERITED
    ensures key !in Fold(local, frames, version, beats)
    decreases |frames|
  {
    hide INHERITED;
    if |frames| > 0 {
      InheritedNeverAdopted(local, frames[..|frames| - 1], key, version, beats);
    }
  }
}
