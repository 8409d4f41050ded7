/**
  The game mode of `frontend/src/hooks/UseGameModeLogic.js`: a prompt asks
  for a small program, the player types code, and one submission grades it
  by the prompt's expected keywords and a few structural checks.

  The scores are JavaScript doubles in the source. Here they are Dafny
  `real`s, which are exact rationals, so `0.3 + 0.3 + 0.2 + 0.2` is exactly 1.
  `Math.round(x)` is `floor(x + 1/2)`.
*/
module GameMode {
  import opened Strings
  import opened Wrappers

  /** One entry of `CODING_PROMPTS`. */
  datatype PromptData = PromptData(
    id: nat,
    difficulty: string,
    prompt: string,
    language: string,
    expectedKeywords: seq<string>)

  /** `CODING_PROMPTS`: six Java exercises, two per difficulty. */
  const CodingPrompts: seq<PromptData> := [
    PromptData(1, "Easy", "Write a function in Java that calculates the sum of two integers.", "java",
               ["public", "static", "int", "+", "return"]),
    PromptData(2, "Easy", "Create a Java method that prints \"Hello, World!\" to the console.", "java",
               ["public", "static", "void", "main", "System.out.println"]),
    PromptData(3, "Medium", "Write a Java method to reverse a given string.", "java",
               ["public", "static", "String", "StringBuilder", "reverse", "return"]),
    PromptData(4, "Medium", "Implement a Java function that checks if a number is prime.", "java",
               ["public", "static", "boolean", "for", "%", "return"]),
    PromptData(5, "Hard", "Write a Java method that implements binary search on a sorted array of integers.", "java",
               ["public", "static", "int", "while", "mid", "return"]),
    PromptData(6, "Hard", "Create a Java class representing a simple BankAccount with methods for deposit and withdrawal.", "java",
               ["public", "class", "private", "double", "deposit", "withdraw", "balance"])
  ]

  // ================================================================ keywords

  /** `expectedKeywords.filter(k => codeText.includes(k.toLowerCase()))`. */
  function FoundKeywords(keywords: seq<string>, codeText: string): (found: seq<string>)
    ensures |found| <= |keywords|
    ensures forall k :: k in found ==> k in keywords && Includes(codeText, ToLower(k))
  {
    if keywords == [] then []
    else
      var rest := FoundKeywords(keywords[1..], codeText);
      if Includes(codeText, ToLower(keywords[0])) then [keywords[0]] + rest else rest
  }

  /** The filter keeps every expected keyword that the code contains. */
  lemma {:induction false} FoundKeywordsComplete(keywords: seq<string>, codeText: string, k: string)
    requires k in keywords && Includes(codeText, ToLower(k))
    ensures k in FoundKeywords(keywords, codeText)
  {
    if keywords[0] != k {
      FoundKeywordsComplete(keywords[1..], codeText, k);
    }
  }

  /** Every keyword is found exactly when the code contains all of them. */
  lemma {:induction false} AllKeywordsFoundIff(keywords: seq<string>, codeText: string)
    ensures |FoundKeywords(keywords, codeText)| == |keywords|
        <==> forall i :: 0 <= i < |keywords| ==> Includes(codeText, ToLower(keywords[i]))
  {
    if keywords != [] {
      AllKeywordsFoundIff(keywords[1..], codeText);
      if forall i :: 0 <= i < |keywords| ==> Includes(codeText, ToLower(keywords[i])) {
        forall i | 0 <= i < |keywords| - 1 ensures Includes(codeText, ToLower(keywords[1..][i])) {
          assert keywords[1..][i] == keywords[i + 1];
        }
      }
      if forall i :: 0 <= i < |keywords| - 1 ==> Includes(codeText, ToLower(keywords[1..][i])) {
        forall i | 1 <= i < |keywords| ensures Includes(codeText, ToLower(keywords[i])) {
          assert keywords[1..][i - 1] == keywords[i];
        }
      }
    }
  }

  // ================================================================ structure

  /** The language-specific declaration check: the first branch whose
      language matches and whose words occur adds 0.3. */
  predicate HasDeclaration(language: string, codeText: string) {
    || (language == "java" && (Includes(codeText, "public") || Includes(codeText, "private")))
    || (language == "python" && Includes(codeText, "def "))
    || (language == "javascript" && (Includes(codeText, "function") || Includes(codeText, "=>")))
  }

  predicate HasReturn(codeText: string) {
    Includes(codeText, "return")
  }

  predicate HasLogic(codeText: string) {
    Includes(codeText, "for") || Includes(codeText, "while") || Includes(codeText, "if")
  }

  /** Braces balance and parentheses balance, counted in the code as typed. */
  predicate Balanced(code: string) {
    Count(code, '{') == Count(code, '}') && Count(code, '(') == Count(code, ')')
  }

  /** `structureScore` after the four checks. */
  function StructureScore(code: string, codeText: string, language: string): real {
    (if HasDeclaration(language, codeText) then 0.3 else 0.0)
    + (if HasReturn(codeText) then 0.3 else 0.0)
    + (if HasLogic(codeText) then 0.2 else 0.0)
    + (if Balanced(code) then 0.2 else 0.0)
  }

  /** The structure score is a fraction, and it is 1 exactly when all four checks pass. */
  lemma StructureScoreRange(code: string, codeText: string, language: string)
    ensures 0.0 <= StructureScore(code, codeText, language) <= 1.0
    ensures StructureScore(code, codeText, language) == 1.0
        <==> HasDeclaration(language, codeText) && HasReturn(codeText) && HasLogic(codeText) && Balanced(code)
    ensures StructureScore(code, codeText, language) == 0.0
        <==> !HasDeclaration(language, codeText) && !HasReturn(codeText) && !HasLogic(codeText) && !Balanced(code)
  {
  }

  // ================================================================ grading

  /** `keywordScore * 0.6 + structureScore * 0.4` for a prompt with keywords. */
  function TotalScore(found: nat, expected: nat, structure: real): real
    requires expected > 0
  {
    (found as real / expected as real) * 0.6 + structure * 0.4
  }

  /** `Math.round(x)` for a finite `x`. */
  function Round(x: real): int {
    (x + 0.5).Floor
  }

  /** The outcome of a submission: the blank-code refusal, or one of the
      three grades with its `Math.round(totalScore * 100)` percentage.
      `KeepTrying(None)` is the grade of a prompt without keywords, whose
      score `0 / 0` is NaN and fails both thresholds. */
  datatype Grade = Blank | Great(percent: int) | Good(percent: int) | KeepTrying(score: Option<int>)

  /** The grade `evaluateCode` gives. */
  function GradeOf(code: string, promptData: PromptData): (g: Grade)
    ensures g.Blank? <==> JsTrim(code) == []
  {
    if JsTrim(code) == [] then Blank
    else
      var codeText := ToLower(code);
      var expected := |promptData.expectedKeywords|;
      var found := |FoundKeywords(promptData.expectedKeywords, codeText)|;
      var structure := StructureScore(code, codeText, promptData.language);
      if expected == 0 then KeepTrying(None)
      else
        var total := TotalScore(found, expected, structure);
        var percent := Round(total * 100.0);
        if total >= 0.7 then Great(percent)
        else if total >= 0.4 then Good(percent)
        else KeepTrying(Some(percent))
  }

  /** The object `evaluateCode` returns. */
  datatype Submission = Submission(success: bool, message: string)

  const BlankMessage: string := "Please write some code before submitting."

  function ScoreText(percent: int): string {
    if percent >= 0 then NatToString(percent) else "-" + NatToString(-percent)
  }

  const GreatText: string := "Great job! Your code looks good. Score: "
  const GoodText: string := "Good attempt! Try to include more of the required elements. Score: "
  const KeepTryingText: string := "Keep trying! Make sure your code addresses the prompt requirements. Score: "

  /** The message text of each grade. */
  function Message(g: Grade): string {
    match g
    case Blank => BlankMessage
    case Great(p) => GreatText + ScoreText(p) + "%"
    case Good(p) => GoodText + ScoreText(p) + "%"
    case KeepTrying(p) => KeepTryingText + (if p.Some? then ScoreText(p.value) else "NaN") + "%"
  }

  /** `evaluateCode(code, promptData)`: blank code is refused, and only the
      top grade is a success. */
  function Evaluate(code: string, promptData: PromptData): (r: Submission)
    ensures JsTrim(code) == [] ==> r == Submission(false, BlankMessage)
    ensures r.success <==> GradeOf(code, promptData).Great?
  {
    var g := GradeOf(code, promptData);
    Submission(g.Great?, Message(g))
  }

  /** The total score is a fraction, so the percentage shown lies in [0, 100]. */
  lemma TotalScoreRange(found: nat, expected: nat, structure: real)
    requires 0 < expected && found <= expected && 0.0 <= structure <= 1.0
    ensures 0.0 <= TotalScore(found, expected, structure) <= 1.0
    ensures 0 <= Round(TotalScore(found, expected, structure) * 100.0) <= 100
  {
    var f := found as real / expected as real;
    assert 0.0 <= f <= 1.0 by {
      assert f * expected as real == found as real;
    }
  }

  /** Every percentage a grade reports lies in [0, 100]. */
  lemma GradePercentRange(code: string, promptData: PromptData)
    ensures match GradeOf(code, promptData)
      case Blank => true
      case Great(p) => 0 <= p <= 100
      case Good(p) => 0 <= p <= 100
      case KeepTrying(p) => p.Some? ==> 0 <= p.value <= 100
  {
    if JsTrim(code) != [] && |promptData.expectedKeywords| > 0 {
      var codeText := ToLower(code);
      StructureScoreRange(code, codeText, promptData.language);
      TotalScoreRange(|FoundKeywords(promptData.expectedKeywords, codeText)|,
        |promptData.expectedKeywords|, StructureScore(code, codeText, promptData.language));
    }
  }

  /** A success needs at least half of the keywords: structure alone gives at most 0.4. */
  lemma SuccessNeedsHalfTheKeywords(found: nat, expected: nat, structure: real)
    requires 0 < expected && structure <= 1.0
    requires TotalScore(found, expected, structure) >= 0.7
    ensures 2 * found >= expected
  {
    var f := found as real / expected as real;
    assert f >= 0.5;
    assert f * expected as real == found as real;
  }

  /** A success needs more than a quarter of the structure score: keywords alone give at most 0.6. */
  lemma SuccessNeedsStructure(found: nat, expected: nat, structure: real)
    requires 0 < expected && found <= expected
    requires TotalScore(found, expected, structure) >= 0.7
    ensures structure >= 0.25
  {
    var f := found as real / expected as real;
    assert f <= 1.0 by {
      assert f * expected as real == found as real;
    }
  }

  /** With every keyword found, a structure score of 0.3 brings the total to 0.72. */
  lemma FullKeywordScore(expected: nat, structure: real)
    requires 0 < expected && structure >= 0.3
    ensures TotalScore(expected, expected, structure) >= 0.7
  {
    assert expected as real / expected as real == 1.0;
  }

  /** Finding every keyword and passing the declaration or the return check is a success. */
  lemma AllKeywordsAndOneCheckSucceed(code: string, promptData: PromptData)
    requires JsTrim(code) != [] && |promptData.expectedKeywords| > 0
    requires forall i :: 0 <= i < |promptData.expectedKeywords| ==>
                           Includes(ToLower(code), ToLower(promptData.expectedKeywords[i]))
    requires HasDeclaration(promptData.language, ToLower(code)) || HasReturn(ToLower(code))
    ensures Evaluate(code, promptData).success
  {
    var codeText, keywords := ToLower(code), promptData.expectedKeywords;
    var structure := StructureScore(code, codeText, promptData.language);
    AllKeywordsFoundIff(keywords, codeText);
    StructureScoreRange(code, codeText, promptData.language);
    FullKeywordScore(|keywords|, structure);
  }

  /** More keywords found never lowers the total score. */
  lemma TotalScoreMonotone(found1: nat, found2: nat, expected: nat, structure: real)
    requires 0 < expected && found1 <= found2
    ensures TotalScore(found1, expected, structure) <= TotalScore(found2, expected, structure)
  {
    assert found1 as real / expected as real <= found2 as real / expected as real;
  }

  /** Every prompt of the game has expected keywords, so the NaN grade never arises there. */
  lemma CodingPromptsHaveKeywords()
    ensures forall i :: 0 <= i < |CodingPrompts| ==> |CodingPrompts[i].expectedKeywords| > 0
  {
  }

  // ================================================================ state

  /** The hook's state. `currentPrompt` is kept beside `currentPromptData` as in
      the source; the two always agree. */
  class GameSession {
    var currentPrompt: string
    var currentPromptData: PromptData
    var userCode: string
    var isSubmitted: bool
    var submissionResult: Option<Submission>

    /** A result is stored exactly when the code has been submitted, and it is
        the evaluation of the code still shown, because that code is frozen. */
    predicate Valid()
      reads this
    {
      && currentPrompt == currentPromptData.prompt
      && (isSubmitted <==> submissionResult.Some?)
      && (isSubmitted ==>
            JsTrim(userCode) != [] && submissionResult == Some(Evaluate(userCode, currentPromptData)))
    }

    /** The hook's initial state: the first prompt and empty, unsubmitted code. */
    constructor()
      ensures Valid()
      ensures currentPromptData == CodingPrompts[0] && userCode == ""
      ensures !isSubmitted && submissionResult == None
    {
      currentPrompt := CodingPrompts[0].prompt;
      currentPromptData := CodingPrompts[0];
      userCode := "";
      isSubmitted := false;
      submissionResult := None;
    }

    /** `handleCodeChange(newCode)`: edits are ignored once the code is submitted. */
    method HandleCodeChange(newCode: string)
      requires Valid()
      modifies this
      ensures Valid()
      ensures userCode == if old(isSubmitted) then old(userCode) else newCode
      ensures currentPrompt == old(currentPrompt) && currentPromptData == old(currentPromptData)
      ensures isSubmitted == old(isSubmitted) && submissionResult == old(submissionResult)
    {
      if !isSubmitted {
        userCode := newCode;
      }
    }

    /** `handleSubmit()`: blank or already submitted code changes nothing;
        otherwise the evaluation is stored and the code is frozen. */
    method HandleSubmit()
      requires Valid()
      modifies this
      ensures Valid()
      ensures userCode == old(userCode)
      ensures currentPrompt == old(currentPrompt) && currentPromptData == old(currentPromptData)
      ensures if JsTrim(old(userCode)) == [] || old(isSubmitted)
        then isSubmitted == old(isSubmitted) && submissionResult == old(submissionResult)
        else isSubmitted && submissionResult == Some(Evaluate(userCode, currentPromptData))
    {
      if JsTrim(userCode) == [] || isSubmitted {
        return;
      }
      var result := Evaluate(userCode, currentPromptData);
      submissionResult := Some(result);
      isSubmitted := true;
    }

    /** `generateNewPrompt()` with the value of `Math.floor(Math.random() * 6)`
        passed in: the new prompt, with the code and the result cleared. */
    method GenerateNewPrompt(randomIndex: nat)
      requires randomIndex < |CodingPrompts|
      modifies this
      ensures Valid()
      ensures currentPromptData == CodingPrompts[randomIndex]
      ensures userCode == "" && !isSubmitted && submissionResult == None
    {
      var newPromptData := CodingPrompts[randomIndex];
      currentPrompt := newPromptData.prompt;
      currentPromptData := newPromptData;
      userCode := "";
      isSubmitted := false;
      submissionResult := None;
    }
  }
}
