/** The onboarding endpoint: the wizard's answers are copied onto the user,
    and the learning profile is created or updated so that every favourite
    subject starts out counted as strong. */
module Users {
  import opened Common

  datatype OnboardingData = OnboardingData(learningSpeed: Speed, hoursPerWeek: int, modes: seq<string>,
                                           subjects: seq<string>, language: string, timePreference: string)

  datatype User = User(learningSpeed: Speed, hoursPerWeek: int, modes: seq<string>, subjects: seq<string>,
                       language: string, timePreference: Option<string>, onboardingCompleted: bool,
                       onboardingDate: Option<int>)

  /** The learning profile; the pace and `strengths` are nullable columns. */
  datatype Profile = Profile(selfReportedSpeed: Option<Speed>, subjectSpeeds: map<string, real>,
                             modePerformance: map<string, real>, strengths: Option<map<string, real>>)

  /** The strength a favourite subject is given. */
  const FavoriteStrength: real := 0.7

  function RMax(a: real, b: real): real { if a < b then b else a }

  /** `dict.get(subj, 0)` */
  function Get(m: map<string, real>, k: string): real
  {
    if k in m then m[k] else 0.0
  }

  /** A new profile's strengths: each favourite at 0.7 and nothing else. */
  function NewStrengths(favs: seq<string>): (m: map<string, real>)
    ensures forall s :: s in m <==> s in favs
    ensures forall s :: s in m ==> m[s] == FavoriteStrength
  {
    map s | s in favs :: FavoriteStrength
  }

  /** The update loop over the favourites: each ends at least 0.7, keeping a
      higher strength it had; other subjects are untouched. */
  function Boost(m: map<string, real>, favs: seq<string>): (r: map<string, real>)
    ensures forall s :: s in r <==> s in m || s in favs
    ensures forall s :: s in favs ==> r[s] == RMax(Get(m, s), FavoriteStrength)
    ensures forall s :: s in m && s !in favs ==> r[s] == m[s]
  {
    if favs == [] then m
    else
      var init := favs[..|favs| - 1];
      var s := favs[|favs| - 1];
      assert favs == init + [s];
      var b := Boost(m, init);
      b[s := RMax(Get(b, s), FavoriteStrength)]
  }

  /** `dict(profile.subject_strengths) if profile.subject_strengths else {}`:
      a missing or empty column reads as no strengths. */
  function Current(strengths: Option<map<string, real>>): (m: map<string, real>)
    ensures strengths.Some? ==> m == strengths.value
    ensures strengths.None? ==> m == map[]
  {
    if strengths.Some? then strengths.value else map[]
  }

  /** `complete_onboarding`, from the user, the profile if there is one, the
      posted answers and the clock. */
  function CompleteOnboarding(u: User, profile: Option<Profile>, d: OnboardingData, now: int): (r: (User, Profile))
    ensures var v := r.0;
      && v.learningSpeed == d.learningSpeed && v.hoursPerWeek == d.hoursPerWeek && v.modes == d.modes
      && v.subjects == d.subjects && v.language == d.language && v.timePreference == Some(d.timePreference)
      && v.onboardingCompleted && v.onboardingDate == Some(now)
    ensures r.1.selfReportedSpeed == Some(d.learningSpeed) && r.1.strengths.Some?
    ensures profile.None? ==>
      r.1 == Profile(Some(d.learningSpeed), map[], map[], Some(NewStrengths(d.subjects)))
    ensures profile.Some? ==>
      && r.1.subjectSpeeds == profile.value.subjectSpeeds && r.1.modePerformance == profile.value.modePerformance
      && r.1.strengths.value == Boost(Current(profile.value.strengths), d.subjects)
  {
    var v := u.(learningSpeed := d.learningSpeed, hoursPerWeek := d.hoursPerWeek, modes := d.modes,
                subjects := d.subjects, language := d.language, timePreference := Some(d.timePreference),
                onboardingCompleted := true, onboardingDate := Some(now));
    match profile
    case None => (v, Profile(Some(d.learningSpeed), map[], map[], Some(NewStrengths(d.subjects))))
    case Some(p) =>
      (v, p.(selfReportedSpeed := Some(d.learningSpeed), strengths := Some(Boost(Current(p.strengths), d.subjects))))
  }

  /** Every favourite comes out at least 0.7, and no subject loses strength. */
  lemma OnboardingNeverWeakens(u: User, profile: Option<Profile>, d: OnboardingData, now: int)
    ensures var m := CompleteOnboarding(u, profile, d, now).1.strengths.value;
      && (forall s :: s in d.subjects ==> s in m && m[s] >= FavoriteStrength)
      && (profile.Some? ==> forall s :: s in Current(profile.value.strengths) ==>
            s in m && m[s] >= Current(profile.value.strengths)[s])
  {
  }

  /** Boosting the same favourites again changes nothing. */
  lemma {:induction false} BoostIdempotent(m: map<string, real>, favs: seq<string>)
    ensures Boost(Boost(m, favs), favs) == Boost(m, favs)
  {
    var b := Boost(m, favs);
    var bb := Boost(b, favs);
    forall s | s in bb ensures s in b && bb[s] == b[s] {
    }
    assert bb.Keys == b.Keys;
  }

  /** Posting the same answers twice leaves the strengths where the first
      post put them. */
  lemma {:induction false} OnboardingIdempotent(u: User, profile: Option<Profile>, d: OnboardingData, now1: int, now2: int)
    ensures var first := CompleteOnboarding(u, profile, d, now1);
      var second := CompleteOnboarding(first.0, Some(first.1), d, now2);
      second.1.strengths == first.1.strengths
  {
    var first := CompleteOnboarding(u, profile, d, now1);
    var m := first.1.strengths.value;
    assert Current(first.1.strengths) == m;
    if profile.None? {
      var bm := Boost(m, d.subjects);
      forall s | s in bm ensures s in m && bm[s] == m[s] {
        if s in d.subjects {
          assert Get(m, s) == FavoriteStrength;
        }
      }
      assert bm.Keys == m.Keys;
      assert bm == m;
      var second := CompleteOnboarding(first.0, Some(first.1), d, now2);
      assert second.1.strengths == Some(bm);
    } else {
      BoostIdempotent(Current(profile.value.strengths), d.subjects);
    }
  }
}
