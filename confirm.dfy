/**
 * `ask_confirm` of `ssh_connect/ui/confirm.py`: a yes/no question repeated
 * until the answer is recognised. The answers the user types are a finite
 * sequence; when it runs out first, `prompt` raises end-of-file, which is
 * `None` here.
 */
module Confirm {
  import opened Wrappers
  import opened Strings

  /**
   * One answer after `strip().lower()`: empty, "y" or "yes" is yes, "n" or
   * "no" is no, anything else is `None` and repeats the question.
   */
  function Classify(answer: string): Option<bool> {
    ClassifyWord(Lower(Strip(answer)))
  }

  /** The membership tests of `ask_confirm` on the normalised answer. */
  function ClassifyWord(a: string): Option<bool> {
    if IsYesWord(a) then Some(true)
    else if IsNoWord(a) then Some(false)
    else None
  }

  /** `a in ("", "y", "yes")`, letter by letter. */
  predicate IsYesWord(a: string) {
    || |a| == 0
    || (|a| == 1 && a[0] == 'y')
    || (|a| == 3 && a[0] == 'y' && a[1] == 'e' && a[2] == 's')
  }

  /** `a in ("n", "no")`, letter by letter. */
  predicate IsNoWord(a: string) {
    || (|a| == 1 && a[0] == 'n')
    || (|a| == 2 && a[0] == 'n' && a[1] == 'o')
  }

  /** The letter-by-letter tests are the tuple memberships of the source. */
  lemma WordTests(a: string)
    ensures IsYesWord(a) <==> a in {"", "y", "yes"}
    ensures IsNoWord(a) <==> a in {"n", "no"}
  {
    if |a| == 1 {
      assert a == [a[0]];
    } else if |a| == 2 {
      assert a == [a[0], a[1]];
    } else if |a| == 3 {
      assert a == [a[0], a[1], a[2]];
    }
  }

  /** The answer `ask_confirm` returns and how many answers it read. */
  datatype Decision = Decision(answer: bool, used: nat)

  /** The first answer that `classify` recognises decides. */
  function FirstDecision(answers: seq<string>, classify: string -> Option<bool>): (r: Option<Decision>)
    ensures r.Some? ==> 1 <= r.value.used <= |answers|
    ensures r.Some? ==> classify(answers[r.value.used - 1]) == Some(r.value.answer)
    ensures r.Some? ==> forall i :: 0 <= i < r.value.used - 1 ==> classify(answers[i]).None?
    ensures r.None? <==> forall i :: 0 <= i < |answers| ==> classify(answers[i]).None?
    decreases |answers|
  {
    if answers == [] then None
    else
      match classify(answers[0])
      case Some(b) => Some(Decision(b, 1))
      case None =>
        var rest := FirstDecision(answers[1..], classify);
        assert forall i :: 1 <= i < |answers| ==> answers[i] == answers[1..][i - 1];
        match rest
        case Some(d) => Some(Decision(d.answer, d.used + 1))
        case None => None
  }

  /** What `ask_confirm` returns for the answers typed, and how many it read. */
  function Decide(answers: seq<string>): Option<Decision> {
    FirstDecision(answers, Classify)
  }

  /** `ask_confirm`: prompts, reads an answer, returns on a recognised one, asks again otherwise. */
  method AskConfirm(answers: seq<string>) returns (r: Option<bool>, used: nat)
    ensures Decide(answers) == if r.None? then None else Some(Decision(r.value, used))
    ensures used <= |answers|
  {
    used := 0;
    while used < |answers|
      invariant 0 <= used <= |answers|
      invariant forall i :: 0 <= i < used ==> Classify(answers[i]).None?
    {
      var answer := Lower(Strip(answers[used]));
      WordTests(answer);
      used := used + 1;
      if answer in {"", "y", "yes"} {
        r := Some(true);
        FirstRecognised(answers, used - 1);
        return;
      }
      if answer in {"n", "no"} {
        r := Some(false);
        FirstRecognised(answers, used - 1);
        return;
      }
    }
    r := None;
  }

  lemma {:induction false} FirstDecisionAt(answers: seq<string>, classify: string -> Option<bool>, j: nat)
    requires j < |answers| && classify(answers[j]).Some?
    requires forall i :: 0 <= i < j ==> classify(answers[i]).None?
    ensures FirstDecision(answers, classify) == Some(Decision(classify(answers[j]).value, j + 1))
    decreases j
  {
    if j > 0 {
      FirstDecisionAt(answers[1..], classify, j - 1);
    }
  }

  /** The answer at `j` decides when it is recognised and none before it is. */
  lemma FirstRecognised(answers: seq<string>, j: nat)
    requires j < |answers| && Classify(answers[j]).Some?
    requires forall i :: 0 <= i < j ==> Classify(answers[i]).None?
    ensures Decide(answers) == Some(Decision(Classify(answers[j]).value, j + 1))
  {
    FirstDecisionAt(answers, Classify, j);
  }

  /** Unrecognised answers before a recognised one are skipped. */
  lemma RepromptUntilRecognised(junk: seq<string>, answer: string, rest: seq<string>)
    requires forall i :: 0 <= i < |junk| ==> Classify(junk[i]).None?
    requires Classify(answer).Some?
    ensures Decide(junk + [answer] + rest) == Some(Decision(Classify(answer).value, |junk| + 1))
  {
    var all := junk + [answer] + rest;
    assert all[|junk|] == answer;
    forall i | 0 <= i < |junk|
      ensures Classify(all[i]).None?
    {
      assert all[i] == junk[i];
    }
    FirstRecognised(all, |junk|);
  }

  /** An empty or all-whitespace answer is the default yes. */
  lemma BlankIsYes(answer: string)
    requires AllSpace(answer)
    ensures Classify(answer) == Some(true)
  {
    StripPadded(answer, [], []);
    assert answer + [] + [] == answer;
  }

  /** Whitespace around an answer does not matter. */
  lemma PaddingIgnored(a: string, t: string, b: string)
    requires AllSpace(a) && AllSpace(b) && Trimmed(t)
    ensures Classify(a + t + b) == Classify(t)
  {
    StripPadded(a, t, b);
    StripPadded([], t, []);
    assert [] + t + [] == t;
  }

  /** Example: case does not matter, so "YES" and "Y" are yes. */
  lemma UpperCaseYes()
    ensures Classify("YES") == Some(true) && Classify("Y") == Some(true)
  {
    LowerWord("YES", "yes");
    LowerWord("Y", "y");
  }

  /** Example: "No" and "N" are no. */
  lemma UpperCaseNo()
    ensures Classify("No") == Some(false) && Classify("N") == Some(false)
  {
    LowerWord("No", "no");
    LowerWord("N", "n");
  }

  /** Example: words that merely start like "yes" or "no" are not recognised and repeat the question. */
  lemma NearMissRepeats()
    ensures Classify("yep") == None && Classify("nope") == None
  {
    LowerWord("yep", "yep");
    LowerWord("nope", "nope");
  }

  /** A word without surrounding whitespace is classified by its lower-case letters. */
  lemma LowerWord(w: string, l: string)
    requires w != [] && !IsSpace(w[0]) && !IsSpace(w[|w| - 1])
    requires |l| == |w| && forall i :: 0 <= i < |w| ==> l[i] == LowerChar(w[i])
    ensures Classify(w) == ClassifyWord(l)
  {
    StripPadded([], w, []);
    assert [] + w + [] == w;
    assert Lower(w) == l;
  }
}
