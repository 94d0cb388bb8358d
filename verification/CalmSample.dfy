/** The premises of convergence can be met: a first pass that writes the only release there is. */
module CalmSample {
  import opened Basics
  import opened Text
  import opened Matcher
  import opened GitBranch
  import opened Rollout
  import opened Runs
  import opened Convergence

  function Sample(): Setting {
    var find := (t: string) => if t == "1" then Some(["1"]) else None;
    var edit := (data: map<string, string>) => (text: string) => if "tag" in data then Some(data["tag"]) else None;
    Setting(Spec(true, false, true, true, 0, true, "app.yaml", Pattern(["n"], find), map[], edit), 1, ["1"],
            (t: Tag) => true, (t: Tag) => "sha256:" + Zeros(64))
  }

  function Zeros(n: nat): (r: string)
    ensures |r| == n && forall i :: 0 <= i < n ==> r[i] == '0'
  {
    if n == 0 then "" else Zeros(n - 1) + "0"
  }

  function Quiet(): seq<Attempt> {
    [Attempt([], [], NoFault), Attempt([], [], NoFault), Attempt([], [], NoFault)]
  }

  function FirstPass(): Event {
    var app := AppState(NoRevision, [], [], Healthy, false);
    Event(Sample().spec, 1,
          Answers(0, 0, 0, Some(app), Some(app), true, true, true, true, true, Some(["1"]),
                  (t: Tag) => Some(map[]), (t: Tag) => Some("sha256:" + Zeros(64)), true, true, [], Quiet(), Quiet()))
  }

  function Fresh(): World {
    World(EMPTY, [Commit(map["app.yaml" := ""])], 0)
  }

  lemma SampleIsValid()
    ensures ValidSetting(Sample())
  {
    var c := Sample();
    forall m | m in Matches(c.spec.pattern, c.tags) ensures m == Match("1", map["n" := "1"]) {
      MatchesExactly(c.spec.pattern, c.tags, m);
      assert ["n"][..0] == [] && ["1"][..0] == [];
    }
    assert DigitsValue("1") == 1;
  }

  lemma SampleApplies(data: map<string, string>)
    requires "tag" in data
    ensures ApplyRun(Fresh().history, "app.yaml", Sample().spec.edit(data), Quiet(), 0).1.Applied?
  {
    assert Fresh().history + [] == Fresh().history;
    var once := ApplyOnce(Fresh().history, "app.yaml", Sample().spec.edit(data), Quiet()[0]).1;
    assert once.Over? && once.result.Applied?;
  }

  lemma SampleLatest()
    ensures LatestOf(Sample().spec.pattern, Unskipped(["1"], [])) == Some(Match("1", map["n" := "1"]))
  {
    var c, m := Sample(), Match("1", map["n" := "1"]);
    UnskippedNothing(["1"]);
    assert ["n"][..0] == [] && ["1"][..0] == [];
    MatchesExactly(c.spec.pattern, c.tags, m);
    LatestIsAMatch(c.spec.pattern, c.tags);
    var latest := LatestOf(c.spec.pattern, c.tags);
    MatchesExactly(c.spec.pattern, c.tags, latest.value);
  }

  lemma SampleIsCalm()
    ensures ValidSetting(Sample()) && Admissible(Fresh(), FirstPass()) && Calm(Sample(), Fresh(), FirstPass())
  {
    hide ApplyRun, LatestOf, Unskipped, ValidDigest, Matches, ReleaseData;
    SampleIsValid();
    var c, w, e := Sample(), Fresh(), FirstPass();
    assert w.history + [] == w.history;
    forall t | IsRelease(c, t)
      ensures ApplyRun(w.history, "app.yaml", c.spec.edit(DataFor(c, e, t)), Quiet(), 0).1.Applied?
    {
      TagInData(c, e, t);
      SampleApplies(DataFor(c, e, t));
    }
  }

  lemma TagInData(c: Setting, e: Event, t: Tag)
    requires ValidSetting(c) && IsRelease(c, t) && e.ans.release(t).Some?
    ensures "tag" in DataFor(c, e, t)
  {
  }

  lemma SampleWrites()
    ensures Admissible(Fresh(), FirstPass()) && PassAt(Fresh(), FirstPass()).written == Some("1")
  {
    hide ApplyRun, LatestOf, Unskipped, ValidDigest, Matches, ReleaseData;
    SampleIsValid();
    SampleLatest();
    var c, w, e := Sample(), Fresh(), FirstPass();
    assert w.history + [] == w.history;
    TagInData(c, e, "1");
    SampleApplies(DataFor(c, e, "1"));
    assert DataFor(c, e, "1") == ReleaseData(c.spec, Match("1", map["n" := "1"]), map[]) by {
      assert ["n"][..0] == [] && ["1"][..0] == [];
    }
  }

  /** A run to which the convergence theorems apply, with an edit that needs the tag, and which does write. */
  lemma CalmRunsExist()
    ensures ValidSetting(Sample()) && Admissible(Fresh(), FirstPass())
    ensures CalmRun(Sample(), [Fresh(), After(Fresh(), FirstPass())], [FirstPass()])
    ensures PassAt(Fresh(), FirstPass()).written == Some("1")
    ensures forall text :: Sample().spec.edit(map[])(text) == None
  {
    hide Calm, PassAt, After, ValidSetting;
    SampleIsCalm();
    SampleWrites();
  }
}
