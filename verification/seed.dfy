/** The decision logic of the IncluReach seed script: the keyword
    classification of job titles into profession types, the round-robin
    assignment of seed jobs to recruiters, and the per-category tally. */
module Seed {
  import opened Seqs
  import opened Text
  import opened Js
  import opened Schema

  // ---------------------------------------------------------------------
  // getCategoryFromTitle

  /** The keyword groups, in the order they are tried, each with the
      profession type it stands for. */
  const Groups: seq<(string, seq<string>)> := [
    ("Engineering/Technical", ["Developer", "Engineer", "Technician", "QA", "Tester"]),
    ("Creative/Arts", ["Designer", "Editor", "Writer", "Content", "Video"]),
    ("Administrative", ["Assistant", "Coordinator", "Data Entry", "Bookkeeper", "HR"]),
    ("Service", ["Support", "Customer", "Counselor"]),
    ("Healthcare", ["Medical", "Transcriptionist", "Healthcare"]),
    ("Education", ["Tutor", "Teacher", "Education"]),
    ("Skilled Trade", ["Jewelry", "Electronics", "Repair"])]

  const OtherCategory := "Other"

  /** `keywords.some(k => title.includes(k))`: case-sensitive. */
  function AnyIncluded(title: string, keywords: seq<string>): (r: bool)
    ensures r <==> exists i :: 0 <= i < |keywords| && Contains(title, keywords[i])
  {
    if |keywords| == 0 then false
    else
      assert forall i :: 0 < i < |keywords| ==> keywords[i] == keywords[1..][i - 1];
      Includes(title, keywords[0]) || AnyIncluded(title, keywords[1..])
  }

  /** Group `g` is the first whose keywords occur in `title`. */
  predicate FirstMatch(title: string, g: int)
  {
    && 0 <= g < |Groups|
    && AnyIncluded(title, Groups[g].1)
    && forall h :: 0 <= h < g ==> !AnyIncluded(title, Groups[h].1)
  }

  /** The first group from `from` on whose keywords occur in `title`. */
  function FirstGroupFrom(title: string, from: nat): (r: Option<nat>)
    requires from <= |Groups|
    ensures r.Some? ==> from <= r.value < |Groups| && AnyIncluded(title, Groups[r.value].1)
    ensures r.Some? ==> forall h :: from <= h < r.value ==> !AnyIncluded(title, Groups[h].1)
    ensures r.None? ==> forall h :: from <= h < |Groups| ==> !AnyIncluded(title, Groups[h].1)
    decreases |Groups| - from
  {
    if from == |Groups| then None
    else if AnyIncluded(title, Groups[from].1) then Some(from)
    else FirstGroupFrom(title, from + 1)
  }

  /** The group names are the first seven profession types, in order. */
  lemma GroupNamesAreProfessions()
    ensures forall g :: 0 <= g < |Groups| ==> Groups[g].0 == ProfessionTypes[g]
    ensures |Groups| == 7 && |ProfessionTypes| == 8 && ProfessionTypes[7] == OtherCategory
  {
  }

  /** `getCategoryFromTitle`: the profession type of the first group with a
      keyword in the title, else "Other". */
  function CategoryFromTitle(title: string): (r: string)
    ensures r in ProfessionTypes
    ensures forall g :: FirstMatch(title, g) ==> r == Groups[g].0
    ensures (forall g :: 0 <= g < |Groups| ==> !AnyIncluded(title, Groups[g].1)) <==> r == OtherCategory
  {
    GroupNamesAreProfessions();
    match FirstGroupFrom(title, 0)
    case None => OtherCategory
    case Some(g) =>
      assert Groups[g].0 == ProfessionTypes[g];
      Groups[g].0
  }

  /** `p` does not occur in `s` when no position holding `p`'s first
      character leaves room for the rest of it. */
  lemma AbsentByFirstChar(s: string, p: string)
    requires |p| > 0
    requires forall i :: 0 <= i < |s| && s[i] == p[0] ==> i + |p| > |s|
    ensures !Contains(s, p)
  {
    forall i | OccursAt(s, p, i) ensures false {
      OccursAtStart(s, p, i);
    }
  }

  /** An occurrence at a known position. */
  lemma ContainsAt(s: string, p: string, i: nat)
    requires i + |p| <= |s| && s[i..i + |p|] == p
    ensures Contains(s, p)
  {
    assert OccursAt(s, p, i);
  }

  /** The order decides: "Electronics Technician" holds a skilled-trade
      keyword and is still classed as engineering, because that group is
      tried first. */
  lemma ElectronicsTechnicianIsEngineering()
    ensures AnyIncluded("Electronics Technician", Groups[6].1)
    ensures CategoryFromTitle("Electronics Technician") == "Engineering/Technical"
  {
    var t := "Electronics Technician";
    ContainsAt(t, "Electronics", 0);
    ContainsAt(t, "Technician", 12);
    assert Groups[6].1[1] == "Electronics";
    assert Groups[0].1[2] == "Technician";
    assert FirstMatch(t, 0);
  }

  /** "Jewelry Designer" holds a skilled-trade keyword and is classed as
      creative: no engineering keyword occurs in it, and the creative group
      comes next. */
  lemma JewelryDesignerIsCreative()
    ensures AnyIncluded("Jewelry Designer", Groups[6].1)
    ensures CategoryFromTitle("Jewelry Designer") == "Creative/Arts"
  {
    var t := "Jewelry Designer";
    ContainsAt(t, "Jewelry", 0);
    ContainsAt(t, "Designer", 8);
    assert Groups[6].1[0] == "Jewelry";
    assert Groups[1].1[0] == "Designer";
    NoEngineeringKeyword(t);
    assert FirstMatch(t, 1);
  }

  /** No engineering keyword occurs in "Jewelry Designer". */
  lemma NoEngineeringKeyword(t: string)
    requires t == "Jewelry Designer"
    ensures !AnyIncluded(t, Groups[0].1)
  {
    var eng := Groups[0].1;
    assert eng == ["Developer", "Engineer", "Technician", "QA", "Tester"];
    JewelryLacks(t, "Developer");
    JewelryLacks(t, "Engineer");
    JewelryLacks(t, "Technician");
    JewelryLacks(t, "QA");
    JewelryLacks(t, "Tester");
  }

  /** A word whose first letter appears in "Jewelry Designer" only too late
      to leave room for it does not occur there. */
  lemma JewelryLacks(t: string, p: string)
    requires t == "Jewelry Designer"
    requires p in ["Developer", "Engineer", "Technician", "QA", "Tester"]
    ensures !Contains(t, p)
  {
    assert |p| > 0;
    forall i | 0 <= i < |t| && t[i] == p[0] ensures i + |p| > |t| {
      assert p[0] in "DETQ";
      assert i == 8;
    }
    AbsentByFirstChar(t, p);
  }

  /** Every keyword starts with a capital letter, so a title written in
      lower case is never classified. */
  lemma LowerCaseTitleIsOther(title: string)
    requires forall i :: 0 <= i < |title| ==> !('A' <= title[i] <= 'Z')
    ensures CategoryFromTitle(title) == OtherCategory
  {
    KeywordsCapitalised();
    forall g, k | 0 <= g < |Groups| && 0 <= k < |Groups[g].1|
      ensures !Contains(title, Groups[g].1[k])
    {
      AbsentByFirstChar(title, Groups[g].1[k]);
    }
  }

  lemma KeywordsCapitalised()
    ensures forall g, k :: 0 <= g < |Groups| && 0 <= k < |Groups[g].1| ==>
              |Groups[g].1[k]| > 0 && 'A' <= Groups[g].1[k][0] <= 'Z'
  {
  }

  // ---------------------------------------------------------------------
  // Round-robin assignment of seed jobs

  /** `dummyJobs.map((job, index) => ({...job, postedBy:
      recruiters[index % recruiters.length]._id}))`; with no recruiter the
      index is `NaN`, the lookup undefined and reading `_id` raises. */
  function AssignRecruiters(titles: seq<string>, recruiters: seq<Id>): (r: Option<seq<(string, Id)>>)
    ensures r.None? <==> |recruiters| == 0 && |titles| > 0
    ensures r.Some? ==> |r.value| == |titles|
    ensures r.Some? ==> forall i :: 0 <= i < |titles| ==>
              r.value[i].0 == titles[i] && r.value[i].1 == recruiters[i % |recruiters|]
  {
    if |titles| == 0 then Some([])
    else if |recruiters| == 0 then None
    else Some(seq(|titles|, i requires 0 <= i < |titles| => (titles[i], recruiters[i % |recruiters|])))
  }

  /** How many of the first `m` jobs go to recruiter `j` of `n`. */
  function Load(m: nat, n: nat, j: nat): nat
    requires n > 0
  {
    if m == 0 then 0 else Load(m - 1, n, j) + (if (m - 1) % n == j then 1 else 0)
  }

  /** A non-zero multiple of `n` is at least `n` away from zero. */
  lemma MulAwayFromZero(n: int, x: int)
    requires n > 0
    ensures x >= 1 ==> n * x >= n
    ensures x <= -1 ==> n * x <= -n
  {
    if x >= 1 {
      assert n * x == n * (x - 1) + n;
    } else if x <= -1 {
      assert n * x == n * (x + 1) - n;
    }
  }

  /** Quotient and remainder are the unique such pair. */
  lemma DivModUnique(a: int, n: int, q: int, s: int)
    requires n > 0 && 0 <= s < n && a == n * q + s
    ensures a / n == q && a % n == s
  {
    var q', s' := a / n, a % n;
    assert a == n * q' + s';
    assert n * (q' - q) == s - s';
    MulAwayFromZero(n, q' - q);
  }

  /** One more job: the remainder steps forward, and wraps to a new round. */
  lemma DivModStep(m: nat, n: nat)
    requires n > 0
    ensures (m + 1) % n == (if m % n == n - 1 then 0 else m % n + 1)
    ensures (m + 1) / n == (if m % n == n - 1 then m / n + 1 else m / n)
  {
    var q, s := m / n, m % n;
    assert m == n * q + s;
    if s == n - 1 {
      assert m + 1 == n * (q + 1) + 0;
      DivModUnique(m + 1, n, q + 1, 0);
    } else {
      DivModUnique(m + 1, n, q, s + 1);
    }
  }

  /** Round robin is balanced: recruiter `j` gets one job per full round,
      plus one from the last partial round when `j` comes early enough. */
  lemma {:induction false} RoundRobinLoad(m: nat, n: nat, j: nat)
    requires 0 < n && j < n
    ensures Load(m, n, j) == m / n + (if j < m % n then 1 else 0)
  {
    if m > 0 {
      RoundRobinLoad(m - 1, n, j);
      DivModStep(m - 1, n);
    }
  }

  /** No recruiter gets more than one job more than another. */
  lemma RoundRobinBalanced(m: nat, n: nat, j: nat, k: nat)
    requires 0 < n && j < n && k < n
    ensures Load(m, n, j) <= Load(m, n, k) + 1
  {
    RoundRobinLoad(m, n, j);
    RoundRobinLoad(m, n, k);
  }

  // ---------------------------------------------------------------------
  // Category tally

  /** `(counts[c] || 0)`: the count so far, zero when absent. */
  function CountOf(v: Value): nat
  {
    if v.Num? && v.n > 0 then v.n else 0
  }

  /** `counts[c] = (counts[c] || 0) + 1`. */
  function Bump(counts: Obj, c: string): (r: Obj)
    ensures Get(r, c) == Num(CountOf(Get(counts, c)) + 1)
    ensures forall c' :: c' != c ==> Get(r, c') == Get(counts, c')
    ensures forall c' :: HasKey(r, c') <==> HasKey(counts, c') || c' == c
  {
    SetKeys(counts, c, Num(CountOf(Get(counts, c)) + 1));
    Set(counts, c, Num(CountOf(Get(counts, c)) + 1))
  }

  /** The tally after `categories.forEach(bump)`. */
  function Tally(categories: seq<string>): (r: Obj)
    decreases |categories|
  {
    if |categories| == 0 then []
    else Bump(Tally(categories[..|categories| - 1]), categories[|categories| - 1])
  }

  /** Each category counts its occurrences; a category that never occurs is
      absent. */
  lemma {:induction false} TallyCounts(categories: seq<string>, c: string)
    ensures Get(Tally(categories), c) == if c in categories then Num(multiset(categories)[c]) else Undefined
    ensures HasKey(Tally(categories), c) <==> c in categories
    decreases |categories|
  {
    if |categories| > 0 {
      var init := categories[..|categories| - 1];
      var last := categories[|categories| - 1];
      assert categories == init + [last];
      TallyCounts(init, c);
      TallyCounts(init, last);
    }
  }

  /** The sum of the counts held by an object. */
  function Total(o: Obj): nat
  {
    if |o| == 0 then 0 else CountOf(o[0].1) + Total(o[1..])
  }

  lemma {:induction false} TotalSnoc(o: Obj, x: (string, Value))
    ensures Total(o + [x]) == Total(o) + CountOf(x.1)
  {
    if |o| > 0 {
      assert (o + [x])[1..] == o[1..] + [x];
      TotalSnoc(o[1..], x);
    }
  }

  lemma {:induction false} TotalUpdate(o: Obj, i: nat, x: (string, Value))
    requires i < |o|
    ensures Total(o[i := x]) == Total(o) - CountOf(o[i].1) + CountOf(x.1)
  {
    if i > 0 {
      assert o[i := x][1..] == o[1..][i - 1 := x];
      TotalUpdate(o[1..], i - 1, x);
    }
  }

  /** Every bump adds exactly one to the total. */
  lemma BumpTotal(counts: Obj, c: string)
    ensures Total(Bump(counts, c)) == Total(counts) + 1
  {
    var v := Num(CountOf(Get(counts, c)) + 1);
    match KeyIndex(counts, c)
    case Some(i) =>
      assert Get(counts, c) == counts[i].1;
      TotalUpdate(counts, i, (c, v));
    case None =>
      TotalSnoc(counts, (c, v));
  }

  /** The counts sum to the number of categorised jobs. */
  lemma {:induction false} TallyTotal(categories: seq<string>)
    ensures Total(Tally(categories)) == |categories|
    decreases |categories|
  {
    if |categories| > 0 {
      TallyTotal(categories[..|categories| - 1]);
      BumpTotal(Tally(categories[..|categories| - 1]), categories[|categories| - 1]);
    }
  }

  /** The seed jobs' titles, in the order they are inserted. */
  const SeedTitles: seq<string> := [
    "Frontend Web Developer", "Graphic Designer", "Data Entry Specialist",
    "Customer Support Representative", "Medical Transcriptionist", "Online English Tutor",
    "Software Quality Assurance Tester", "Content Writer", "Accountant",
    "Digital Marketing Specialist", "Python Developer", "HR Coordinator", "Video Editor",
    "Web Developer (Full Stack)", "Virtual Assistant", "Social Media Manager",
    "Technical Support Engineer", "Jewelry Designer", "Research Analyst",
    "Mobile App Developer (Android)", "Counselor (Career Guidance)", "Bookkeeper",
    "UI/UX Designer", "Electronics Technician", "Business Analyst"]

  /** Every tallied category is a profession type. */
  lemma TallyKeysAreProfessions(titles: seq<string>)
    ensures forall c :: HasKey(Tally(Map(titles, CategoryFromTitle)), c) ==> c in ProfessionTypes
  {
    var cats := Map(titles, CategoryFromTitle);
    forall c | HasKey(Tally(cats), c) ensures c in ProfessionTypes {
      TallyCounts(cats, c);
      var i :| 0 <= i < |cats| && cats[i] == c;
    }
  }

  /** The printed distribution: the 25 seed jobs are each counted once,
      under a profession type. */
  lemma SeedTallyAccountsForEveryJob()
    ensures Total(Tally(Map(SeedTitles, CategoryFromTitle))) == 25
    ensures forall c :: HasKey(Tally(Map(SeedTitles, CategoryFromTitle)), c) ==> c in ProfessionTypes
  {
    TallyTotal(Map(SeedTitles, CategoryFromTitle));
    TallyKeysAreProfessions(SeedTitles);
  }
}
