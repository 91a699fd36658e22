/** `groupByDate`: lesson records bucketed by their date string. The screen
    walks the buckets in the order their dates were first inserted
    (`Object.entries`), so the model returns that order beside the map. */
module Grouping {
  import opened Lessons

  /** The lessons of `s` dated `date`, in input order */
  function Bucket(s: seq<ScheduleItem>, date: string): seq<ScheduleItem>
  {
    if s == [] then []
    else Bucket(s[..|s| - 1], date) + (if s[|s| - 1].xdt == date then [s[|s| - 1]] else [])
  }

  /** The distinct dates of `s`, in order of first appearance */
  function Dates(s: seq<ScheduleItem>): seq<string>
  {
    if s == [] then []
    else
      var d := Dates(s[..|s| - 1]);
      if s[|s| - 1].xdt in d then d else d + [s[|s| - 1].xdt]
  }

  /** The dictionary `groupByDate` builds: one bucket per date that occurs */
  function Grouped(s: seq<ScheduleItem>): map<string, seq<ScheduleItem>>
  {
    map d | d in Dates(s) :: Bucket(s, d)
  }

  predicate Distinct(ks: seq<string>)
  {
    forall i, j :: 0 <= i < j < |ks| ==> ks[i] != ks[j]
  }

  /** The buckets of `groups` under `keys`, concatenated in key order */
  function Flatten(keys: seq<string>, groups: map<string, seq<ScheduleItem>>): seq<ScheduleItem>
    requires forall i :: 0 <= i < |keys| ==> keys[i] in groups
  {
    if keys == [] then []
    else Flatten(keys[..|keys| - 1], groups) + groups[keys[|keys| - 1]]
  }

  /** The sum of the sizes of the buckets under `keys` */
  function TotalSize(keys: seq<string>, groups: map<string, seq<ScheduleItem>>): nat
    requires forall i :: 0 <= i < |keys| ==> keys[i] in groups
  {
    if keys == [] then 0
    else TotalSize(keys[..|keys| - 1], groups) + |groups[keys[|keys| - 1]]|
  }

  /** `groupByDate`: one pass over the lessons pushing each into the
      bucket of its date, creating the bucket on that date's first lesson. */
  method GroupByDate(lessons: seq<ScheduleItem>) returns (dates: seq<string>, groups: map<string, seq<ScheduleItem>>)
    ensures dates == Dates(lessons) && groups == Grouped(lessons)
    ensures lessons == [] ==> dates == [] && groups == map[]
  {
    dates, groups := [], map[];
    var i := 0;
    while i < |lessons|
      invariant 0 <= i <= |lessons|
      invariant dates == Dates(lessons[..i])
      invariant groups.Keys == set d | d in dates
      invariant forall d :: d in groups ==> groups[d] == Bucket(lessons[..i], d)
    {
      var lesson := lessons[i];
      assert lessons[..i + 1][..i] == lessons[..i];
      BucketsOutside(lessons[..i], lesson.xdt);
      if lesson.xdt in groups {
        groups := groups[lesson.xdt := groups[lesson.xdt] + [lesson]];
      } else {
        groups := groups[lesson.xdt := [lesson]];
        dates := dates + [lesson.xdt];
      }
      i := i + 1;
    }
    assert lessons[..i] == lessons;
  }

  /** A date that does not occur has an empty bucket */
  lemma {:induction false} BucketsOutside(s: seq<ScheduleItem>, d: string)
    ensures d !in Dates(s) ==> Bucket(s, d) == []
  {
    if s != [] {
      BucketsOutside(s[..|s| - 1], d);
    }
  }

  /** The dates listed are exactly the dates of the lessons, each once */
  lemma {:induction false} DatesMembers(s: seq<ScheduleItem>)
    ensures forall d :: d in Dates(s) <==> exists i :: 0 <= i < |s| && s[i].xdt == d
    ensures Distinct(Dates(s))
    ensures (set d | d in Dates(s)) == set i | 0 <= i < |s| :: s[i].xdt
  {
    if s != [] {
      var p := s[..|s| - 1];
      DatesMembers(p);
      forall d
        ensures d in Dates(s) <==> exists i :: 0 <= i < |s| && s[i].xdt == d
      {
        if d in Dates(p) {
          var i :| 0 <= i < |p| && p[i].xdt == d;
          assert s[i] == p[i];
        }
        if exists i :: 0 <= i < |s| && s[i].xdt == d {
          var i :| 0 <= i < |s| && s[i].xdt == d;
          if i < |p| { assert p[i] == s[i]; }
        }
      }
    }
    assert (set d | d in Dates(s)) == set i | 0 <= i < |s| :: s[i].xdt by {
      forall d | d in (set i | 0 <= i < |s| :: s[i].xdt)
        ensures d in Dates(s)
      {
        var i :| 0 <= i < |s| && s[i].xdt == d;
      }
    }
  }

  /** A lesson is in a bucket exactly when the bucket is keyed by its own date */
  lemma {:induction false} BucketMembers(s: seq<ScheduleItem>, d: string, x: ScheduleItem)
    ensures x in Bucket(s, d) <==> x in s && x.xdt == d
  {
    if s != [] {
      var p := s[..|s| - 1];
      BucketMembers(p, d, x);
      assert s == p + [s[|s| - 1]];
    }
  }

  /** Buckets are filled by appending: the bucket of a concatenation is the
      bucket of the first part followed by that of the second, so lessons keep
      their relative input order. */
  lemma {:induction false} BucketAppend(a: seq<ScheduleItem>, b: seq<ScheduleItem>, d: string)
    ensures Bucket(a + b, d) == Bucket(a, d) + Bucket(b, d)
  {
    if b == [] {
      assert a + b == a;
    } else {
      var b' := b[..|b| - 1];
      assert (a + b)[..|a + b| - 1] == a + b';
      BucketAppend(a, b', d);
    }
  }

  /** A bucket holds every lesson of its date as often as the input does, and
      nothing of another date. */
  lemma {:induction false} BucketCount(s: seq<ScheduleItem>, d: string, x: ScheduleItem)
    ensures multiset(Bucket(s, d))[x] == if x.xdt == d then multiset(s)[x] else 0
  {
    if s != [] {
      var p := s[..|s| - 1];
      BucketCount(p, d, x);
      assert s == p + [s[|s| - 1]];
    }
  }

  /** One step of the reduction: adding a lesson after `s` appends it to the
      bucket of its date, creating that bucket if needed, and leaves every other
      bucket as it was. */
  lemma GroupedSnoc(s: seq<ScheduleItem>, x: ScheduleItem)
    ensures Grouped(s + [x]) ==
      Grouped(s)[x.xdt := (if x.xdt in Grouped(s) then Grouped(s)[x.xdt] else []) + [x]]
  {
    var s' := s + [x];
    assert s'[..|s'| - 1] == s;
    BucketsOutside(s, x.xdt);
    var lhs := Grouped(s');
    var rhs := Grouped(s)[x.xdt := (if x.xdt in Grouped(s) then Grouped(s)[x.xdt] else []) + [x]];
    assert forall d :: d in Dates(s') <==> d in Dates(s) || d == x.xdt;
    assert lhs.Keys == rhs.Keys;
    forall d | d in lhs
      ensures lhs[d] == rhs[d]
    {
    }
  }

  /** Every lesson lies in the bucket of its own date and in no other. */
  lemma GroupedPartition(s: seq<ScheduleItem>)
    ensures forall i :: 0 <= i < |s| ==> s[i].xdt in Grouped(s) && s[i] in Grouped(s)[s[i].xdt]
    ensures forall i, d :: 0 <= i < |s| && d in Grouped(s) && s[i] in Grouped(s)[d] ==> d == s[i].xdt
  {
    DatesMembers(s);
    forall i | 0 <= i < |s|
      ensures s[i].xdt in Grouped(s) && s[i] in Grouped(s)[s[i].xdt]
    {
      BucketMembers(s, s[i].xdt, s[i]);
    }
    forall i, d | 0 <= i < |s| && d in Grouped(s) && s[i] in Grouped(s)[d]
      ensures d == s[i].xdt
    {
      BucketMembers(s, d, s[i]);
    }
  }

  /** Flattening the buckets in the order of their dates gives back the input
      as a multiset, so the bucket sizes add up to the number of lessons. */
  lemma GroupedFlatten(s: seq<ScheduleItem>)
    ensures forall i :: 0 <= i < |Dates(s)| ==> Dates(s)[i] in Grouped(s)
    ensures multiset(Flatten(Dates(s), Grouped(s))) == multiset(s)
    ensures TotalSize(Dates(s), Grouped(s)) == |s|
  {
    DatesMembers(s);
    FlattenOfBuckets(s);
    var ks := Dates(s);
    FlattenIsBuckets(ks, Grouped(s), s);
    SizeIsLength(ks, Grouped(s));
    assert |multiset(Flatten(ks, Grouped(s)))| == |multiset(s)|;
  }

  /** The buckets of `s` under the keys `ks`, concatenated */
  function AllBuckets(ks: seq<string>, s: seq<ScheduleItem>): seq<ScheduleItem>
  {
    if ks == [] then [] else AllBuckets(ks[..|ks| - 1], s) + Bucket(s, ks[|ks| - 1])
  }

  lemma {:induction false} FlattenIsBuckets(ks: seq<string>, g: map<string, seq<ScheduleItem>>, s: seq<ScheduleItem>)
    requires forall i :: 0 <= i < |ks| ==> ks[i] in g && g[ks[i]] == Bucket(s, ks[i])
    ensures Flatten(ks, g) == AllBuckets(ks, s)
  {
    if ks != [] {
      FlattenIsBuckets(ks[..|ks| - 1], g, s);
    }
  }

  lemma {:induction false} SizeIsLength(ks: seq<string>, g: map<string, seq<ScheduleItem>>)
    requires forall i :: 0 <= i < |ks| ==> ks[i] in g
    ensures TotalSize(ks, g) == |Flatten(ks, g)|
  {
    if ks != [] {
      SizeIsLength(ks[..|ks| - 1], g);
    }
  }

  /** Adding a lesson after `s` adds it once to the concatenated buckets of
      distinct keys when its date is among them, and not at all otherwise. */
  lemma {:induction false} AllBucketsSnoc(ks: seq<string>, s: seq<ScheduleItem>, x: ScheduleItem)
    requires Distinct(ks)
    ensures multiset(AllBuckets(ks, s + [x])) ==
      multiset(AllBuckets(ks, s)) + if x.xdt in ks then multiset{x} else multiset{}
  {
    var s' := s + [x];
    assert s'[..|s'| - 1] == s;
    if ks != [] {
      var p := ks[..|ks| - 1];
      var k := ks[|ks| - 1];
      AllBucketsSnoc(p, s, x);
      assert x.xdt in ks <==> x.xdt in p || x.xdt == k;
      assert x.xdt == k ==> x.xdt !in p;
    }
  }

  lemma {:induction false} FlattenOfBuckets(s: seq<ScheduleItem>)
    ensures multiset(AllBuckets(Dates(s), s)) == multiset(s)
  {
    if s != [] {
      var p := s[..|s| - 1];
      var x := s[|s| - 1];
      assert s == p + [x];
      FlattenOfBuckets(p);
      DatesMembers(p);
      AllBucketsSnoc(Dates(p), p, x);
      if x.xdt !in Dates(p) {
        BucketsOutside(p, x.xdt);
        var ks := Dates(s);
        assert ks[..|ks| - 1] == Dates(p);
        assert Bucket(s, x.xdt) == [x];
      }
    }
  }
}
