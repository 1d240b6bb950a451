/** The onboarding wizard: five steps that collect the learner's pace,
    preferred study modes, strong subjects and logistics before they are
    posted to the onboarding endpoint. */
module Onboarding {
  import opened Common
  import opened TextNormalize

  datatype Form = Form(learningSpeed: Speed, modes: seq<string>, subjects: seq<string>,
                       language: string, hoursPerWeek: int, timePreference: string)

  /** The wizard: the step shown (0 welcome, 1 pace, 2 modes, 3 subjects,
      4 logistics), the form and the subject text box. */
  datatype Wizard = Wizard(step: nat, form: Form, subjectInput: string)

  function Initial(): (w: Wizard)
    ensures w.step == 0 && w.subjectInput == "" && w.form.modes == [] && w.form.subjects == []
    ensures w.form.learningSpeed == Moderate
  {
    Wizard(0, Form(Moderate, [], [], "English", 10, "afternoon"), "")
  }

  /** `list.filter(y => y !== x)` */
  function RemoveAll(s: seq<string>, x: string): (r: seq<string>)
    ensures x !in r
    ensures forall y :: y != x ==> (y in r <==> y in s)
    ensures multiset(r) == multiset(s)[x := 0]
  {
    if s == [] then []
    else
      var init := s[..|s| - 1];
      var last := s[|s| - 1];
      assert s == init + [last];
      RemoveAll(init, x) + (if last == x then [] else [last])
  }

  /** Filtering keeps the others in order: it distributes over
      concatenation. */
  lemma {:induction false} RemoveAllAppend(a: seq<string>, b: seq<string>, x: string)
    ensures RemoveAll(a + b, x) == RemoveAll(a, x) + RemoveAll(b, x)
    decreases |b|
  {
    if b == [] {
      assert a + b == a;
    } else {
      var init := b[..|b| - 1];
      assert (a + b)[..|a + b| - 1] == a + init;
      RemoveAllAppend(a, init, x);
    }
  }

  lemma {:induction false} RemoveAllAbsent(s: seq<string>, x: string)
    requires x !in s
    ensures RemoveAll(s, x) == s
    decreases |s|
  {
    if s != [] {
      assert s == s[..|s| - 1] + [s[|s| - 1]];
      RemoveAllAbsent(s[..|s| - 1], x);
    }
  }

  ghost predicate NoDuplicates<T>(s: seq<T>)
  {
    forall i, j :: 0 <= i < j < |s| ==> s[i] != s[j]
  }

  lemma {:induction false} RemoveAllNoDuplicates(s: seq<string>, x: string)
    requires NoDuplicates(s)
    ensures NoDuplicates(RemoveAll(s, x))
    decreases |s|
  {
    if s != [] {
      var init := s[..|s| - 1];
      RemoveAllNoDuplicates(init, x);
      assert s == init + [s[|s| - 1]];
      assert s[|s| - 1] !in init;
    }
  }

  /** `handleModeToggle`: a selected mode is dropped, any other appended. */
  function ToggleMode(w: Wizard, mode: string): (r: Wizard)
    ensures r.step == w.step && r.subjectInput == w.subjectInput
    ensures r.form == w.form.(modes := r.form.modes)
    ensures mode in r.form.modes <==> mode !in w.form.modes
    ensures forall m :: m != mode ==> (m in r.form.modes <==> m in w.form.modes)
    ensures mode !in w.form.modes ==> r.form.modes == w.form.modes + [mode]
  {
    var ms := w.form.modes;
    w.(form := w.form.(modes := if mode in ms then RemoveAll(ms, mode) else ms + [mode]))
  }

  /** Toggling a mode on and off again restores the list; toggling it off
      and on again moves it to the end. */
  lemma {:induction false} ToggleTwice(w: Wizard, mode: string)
    ensures mode !in w.form.modes ==> ToggleMode(ToggleMode(w, mode), mode) == w
    ensures mode in w.form.modes ==>
      ToggleMode(ToggleMode(w, mode), mode).form.modes == RemoveAll(w.form.modes, mode) + [mode]
  {
    if mode !in w.form.modes {
      var ms := w.form.modes;
      RemoveAllAppend(ms, [mode], mode);
      RemoveAllAbsent(ms, mode);
      assert RemoveAll([mode], mode) == [];
    }
  }

  lemma {:induction false} ToggleNoDuplicates(w: Wizard, mode: string)
    requires NoDuplicates(w.form.modes)
    ensures NoDuplicates(ToggleMode(w, mode).form.modes)
  {
    if mode in w.form.modes {
      RemoveAllNoDuplicates(w.form.modes, mode);
    }
  }

  /** Trimming twice changes nothing more. */
  lemma {:induction false} TrimIdempotent(s: string)
    ensures Trim(Trim(s)) == Trim(s)
  {
    var t := Trim(s);
    TrimBlank(s);
    if t != [] {
      TrimmedIsFixed(t);
    }
  }

  /** Typing in the subject box. */
  function SetInput(w: Wizard, text: string): (r: Wizard)
    ensures r.subjectInput == text && r.form == w.form && r.step == w.step
  {
    w.(subjectInput := text)
  }

  /** `handleSubjectAdd`: Enter on a non-blank box adds the trimmed subject
      unless it is already listed, and empties the box; anything else
      leaves the wizard as it was. */
  function SubjectKey(w: Wizard, key: string): (r: Wizard)
    ensures r.step == w.step && r.form == w.form.(subjects := r.form.subjects)
    ensures key != "Enter" || Trim(w.subjectInput) == "" ==> r == w
    ensures key == "Enter" && Trim(w.subjectInput) != "" ==>
      && r.subjectInput == ""
      && (Trim(w.subjectInput) in w.form.subjects ==> r.form.subjects == w.form.subjects)
      && (Trim(w.subjectInput) !in w.form.subjects ==> r.form.subjects == w.form.subjects + [Trim(w.subjectInput)])
  {
    var t := Trim(w.subjectInput);
    if key == "Enter" && t != "" then
      var subs := w.form.subjects;
      w.(form := w.form.(subjects := if t in subs then subs else subs + [t]), subjectInput := "")
    else w
  }

  /** `removeSubject`: every copy of the subject goes, the rest keep their
      order. */
  function RemoveSubject(w: Wizard, sub: string): (r: Wizard)
    ensures r.step == w.step && r.subjectInput == w.subjectInput
    ensures r.form == w.form.(subjects := RemoveAll(w.form.subjects, sub))
  {
    w.(form := w.form.(subjects := RemoveAll(w.form.subjects, sub)))
  }

  /** The subject list holds no blanks, no untrimmed entries, no repeats. */
  ghost predicate CleanSubjects(subs: seq<string>)
  {
    NoDuplicates(subs) && forall s :: s in subs ==> Trimmed(s)
  }

  /** Non-empty, with no white space at either end: what `trim` leaves of a
      non-blank string, and what it leaves unchanged. */
  predicate Trimmed(s: string)
  {
    s != "" && !IsSpace(s[0]) && !IsSpace(s[|s| - 1])
  }

  lemma {:induction false} TrimmedIsFixed(s: string)
    requires Trimmed(s)
    ensures Trim(s) == s
  {
    assert DropSpaces(s) == s;
  }

  lemma {:induction false} SubjectKeyKeeps(w: Wizard, key: string)
    requires CleanSubjects(w.form.subjects)
    ensures CleanSubjects(SubjectKey(w, key).form.subjects)
  {
    var t := Trim(w.subjectInput);
    TrimBlank(w.subjectInput);
    var subs := w.form.subjects;
    if key == "Enter" && t != "" && t !in subs {
      AppendClean(subs, t);
    }
  }

  lemma {:induction false} AppendClean(subs: seq<string>, t: string)
    requires CleanSubjects(subs) && Trimmed(t) && t !in subs
    ensures CleanSubjects(subs + [t])
  {
    var r := subs + [t];
    forall x | x in r ensures Trimmed(x) {
      if x != t {
        assert x in subs;
      }
    }
    forall i, j | 0 <= i < j < |r| ensures r[i] != r[j] {
      if j == |subs| {
        assert r[i] in subs;
      }
    }
  }

  lemma {:induction false} RemoveSubjectKeeps(w: Wizard, sub: string)
    requires CleanSubjects(w.form.subjects)
    ensures CleanSubjects(RemoveSubject(w, sub).form.subjects)
  {
    RemoveAllNoDuplicates(w.form.subjects, sub);
  }

  /** The "Next" button of steps 0 to 3, disabled on the modes step while no
      mode is selected. */
  function Next(w: Wizard): (r: Wizard)
    ensures r.form == w.form && r.subjectInput == w.subjectInput
    ensures r.step == w.step || r.step == w.step + 1
    ensures r.step == w.step + 1 <==> w.step <= 3 && (w.step == 2 ==> |w.form.modes| > 0)
  {
    if w.step <= 3 && !(w.step == 2 && |w.form.modes| == 0) then w.(step := w.step + 1) else w
  }

  /** The "Back" button, shown on steps 2 to 4 only. */
  function Back(w: Wizard): (r: Wizard)
    ensures r.form == w.form && r.subjectInput == w.subjectInput
    ensures r.step == w.step || r.step + 1 == w.step
    ensures r.step + 1 == w.step <==> 2 <= w.step <= 4
  {
    if 2 <= w.step <= 4 then w.(step := w.step - 1) else w
  }

  /** The steps never leave the five pages, and the logistics page (where
      the form is submitted) is reached only with a study mode chosen. */
  lemma StepsStayInRange(w: Wizard)
    requires w.step <= 4
    ensures Next(w).step <= 4 && Back(w).step <= 4
    ensures w.step == 2 && Next(w).step == 3 ==> |w.form.modes| > 0
    ensures w.step < 4 ==> Back(w).step >= w.step - 1
  {
  }
}
