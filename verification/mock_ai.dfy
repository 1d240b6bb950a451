/** The offline stand-in for the AI service: a fixed material analysis, a
    fixed vocabulary list, three templated multiple-choice questions per
    card and one templated example sentence with its highlight. */
module MockAi {
  import opened Common
  import opened JsText
  import FillTheGaps

  datatype VocabCard = VocabCard(front: string, back: string, difficulty: string)

  datatype Analysis = Analysis(category: string, summary: string, topics: seq<string>, difficulty: string,
                               minutes: int, languages: seq<string>, flashcards: seq<VocabCard>)

  /** `analyze_material`: the same analysis whatever the text. */
  function AnalyzeMaterial(text: string): (a: Analysis)
    ensures a.category == "vocabulary"
    ensures |a.flashcards| == 2 && |a.topics| == 3 && a.minutes == 15
  {
    Analysis("vocabulary", "This is a mock summary of the material. It covers basic vocabulary topics.",
             ["Fruit", "Education", "Technology"], "Beginner", 15, ["English", "German"],
             [VocabCard("Apple", "Apfel", "easy"), VocabCard("Book", "Buch", "easy")])
  }

  lemma AnalysisIgnoresText(a: string, b: string)
    ensures AnalyzeMaterial(a) == AnalyzeMaterial(b)
  {
  }

  /** The twenty English-German pairs of the mock vocabulary. */
  const MockVocab: seq<VocabCard> := [
    VocabCard("Apple", "Apfel", "Easy"), VocabCard("Book", "Buch", "Easy"),
    VocabCard("Computer", "Computer", "Medium"), VocabCard("House", "Haus", "Easy"),
    VocabCard("Dog", "Hund", "Easy"), VocabCard("Cat", "Katze", "Easy"),
    VocabCard("Water", "Wasser", "Easy"), VocabCard("Sun", "Sonne", "Easy"),
    VocabCard("Moon", "Mond", "Easy"), VocabCard("Tree", "Baum", "Medium"),
    VocabCard("Car", "Auto", "Medium"), VocabCard("Friend", "Freund", "Easy"),
    VocabCard("School", "Schule", "Medium"), VocabCard("Teacher", "Lehrer", "Medium"),
    VocabCard("Student", "Schüler", "Medium"), VocabCard("Coffee", "Kaffee", "Easy"),
    VocabCard("Bread", "Brot", "Easy"), VocabCard("Milk", "Milch", "Easy"),
    VocabCard("Cheese", "Käse", "Medium"), VocabCard("Time", "Zeit", "Abstract")
  ]

  /** `generate_vocabulary_flashcards`: the list cut after
      `max(num_cards, 15)` entries, so between 15 and all 20, always from
      the start of the list. */
  function VocabularyFlashcards(text: string, numCards: int): (r: seq<VocabCard>)
    ensures |r| == Min(20, Max(numCards, 15))
    ensures 15 <= |r| <= 20
    ensures forall i :: 0 <= i < |r| ==> r[i] == MockVocab[i]
  {
    MockVocab[..Min(Max(numCards, 15), |MockVocab|)]
  }

  datatype Mcq = Mcq(text: string, options: seq<string>, correctIndex: int, rationale: string, kind: string)

  /** `context.get(key, default)` */
  function Lookup(context: map<string, string>, key: string, default: string): string
  {
    if key in context then context[key] else default
  }

  /** `generate_mcq_questions`: a standard, a reverse and a creative
      question of four options each, whose right option is the back, the
      front and the back of the card. */
  function McqQuestions(context: map<string, string>, questionLang: string, answerLang: string): (qs: seq<Mcq>)
    ensures |qs| == 3
    ensures qs[0].kind == "standard" && qs[1].kind == "reverse" && qs[2].kind == "creative"
    ensures forall i :: 0 <= i < 3 ==> |qs[i].options| == 4 && qs[i].correctIndex == i
    ensures var front, back := Lookup(context, "front_text", "Term"), Lookup(context, "back_text", "Definition");
      && qs[0].options[qs[0].correctIndex] == back
      && qs[1].options[qs[1].correctIndex] == front
      && qs[2].options[qs[2].correctIndex] == back
  {
    var front := Lookup(context, "front_text", "Term");
    var back := Lookup(context, "back_text", "Definition");
    [ Mcq("What is the translation of '" + front + "'?", [back, "Wrong1", "Wrong2", "Wrong3"], 0,
          "'" + front + "' translates to '" + back + "'.", "standard"),
      Mcq("Which word means '" + back + "'?", ["Wrong1", front, "Wrong2", "Wrong3"], 1,
          "'" + back + "' means '" + front + "'.", "reverse"),
      Mcq("Complete: I need to say '" + front + "' in " + answerLang + ".", ["Wrong1", "Wrong2", back, "Wrong3"], 2,
          "The correct answer is '" + back + "'.", "creative") ]
  }

  /** The German sentence templates, as the text before and after the
      `{word}` placeholder. */
  const GermanTemplates: seq<(string, string)> := [
    ("Das ist ein ", "."), ("Ich habe kein ", "."), ("Wo ist das ", "?"),
    ("Ich mag das ", "."), ("Hier ist ein ", ".")
  ]

  datatype Span = Span(startIndex: int, endIndex: int)

  datatype MockSentence = MockSentence(text: string, highlights: seq<Span>)

  /** `generate_vocabulary_sentences`: the back put into the German
      template the random choice picked, with the first place it occurs
      highlighted. The highlight always covers exactly the back, though
      where the template itself contains the back it marks that earlier
      occurrence. */
  function VocabularySentences(front: string, back: string, pick: nat): (r: seq<MockSentence>)
    requires pick < |GermanTemplates|
    ensures |r| == 1 && |r[0].highlights| == 1
    ensures var s, h := r[0].text, r[0].highlights[0];
      && s == GermanTemplates[pick].0 + back + GermanTemplates[pick].1
      && 0 <= h.startIndex <= |GermanTemplates[pick].0|
      && h.endIndex == h.startIndex + |back| <= |s|
      && s[h.startIndex..h.endIndex] == back
      && forall i :: 0 <= i < h.startIndex ==> !OccursAt(s, back, i)
  {
    var t := GermanTemplates[pick];
    var s := t.0 + back + t.1;
    assert s[|t.0|..|t.0| + |back|] == back;
    assert OccursAt(s, back, |t.0|);
    var start := IndexOf(s, back);
    [MockSentence(s, [Span(start, start + |back|)])]
  }

  /** The mock sentences always give Fill-the-Gaps something to blank out:
      the word taken from the highlight is the back of the card. */
  lemma MockSentenceGivesGap(front: string, back: string, pick: nat, id: int)
    requires pick < |GermanTemplates|
    ensures var m := VocabularySentences(front, back, pick)[0];
      FillTheGaps.ExtractWord(FillTheGaps.Sentence(id, m.text,
        [FillTheGaps.Span(m.highlights[0].startIndex, m.highlights[0].endIndex)])) == back
  {
  }
}
