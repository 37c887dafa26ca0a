/**
 * Straw polls (src/commands/polls.rs): a question, its answers, and the indices
 * voters picked. The map of polls by channel and message is not modelled; only
 * the record and its three editing methods are.
 */
module Polls {
  import opened Wrappers

  /** `Vec::remove`: the element at `i` goes, the later ones move down by one. */
  function RemoveAt<T>(s: seq<T>, i: nat): (r: seq<T>)
    requires i < |s|
    ensures |r| == |s| - 1
    ensures forall j :: 0 <= j < i ==> r[j] == s[j]
    ensures forall j :: i <= j < |r| ==> r[j] == s[j + 1]
  {
    s[..i] + s[i + 1..]
  }

  /** `Vec::insert`, the inverse of `Vec::remove`. */
  function InsertAt<T>(s: seq<T>, i: nat, x: T): (r: seq<T>)
    requires i <= |s|
    ensures |r| == |s| + 1 && r[i] == x
    ensures forall j :: 0 <= j < i ==> r[j] == s[j]
    ensures forall j :: i < j < |r| ==> r[j] == s[j - 1]
  {
    s[..i] + [x] + s[i..]
  }

  /** Removing what was inserted at `i` gives the sequence back, and putting the
      removed element back where it was restores the original. */
  lemma RemoveInsertRoundTrip<T>(s: seq<T>, i: nat, x: T)
    requires i <= |s|
    ensures RemoveAt(InsertAt(s, i, x), i) == s
    ensures i < |s| ==> InsertAt(RemoveAt(s, i), i, s[i]) == s
  {
    var t := RemoveAt(InsertAt(s, i, x), i);
    assert forall j :: 0 <= j < |s| ==> t[j] == s[j];
    if i < |s| {
      var u := InsertAt(RemoveAt(s, i), i, s[i]);
      assert forall j :: 0 <= j < |s| ==> u[j] == s[j];
    }
  }

  /** `StrawPoll`. */
  class StrawPoll {
    var question: string
    var answers: seq<string>
    var answerers: seq<nat>

    constructor (question: string, answers: seq<string>, answerers: seq<nat>)
      ensures this.question == question && this.answers == answers && this.answerers == answerers
    {
      this.question := question;
      this.answers := answers;
      this.answerers := answerers;
    }

    /** `set_question`: only the question changes. */
    method SetQuestion(question: string)
      modifies this
      ensures this.question == question
      ensures answers == old(answers) && answerers == old(answerers)
    {
      this.question := question;
    }

    /** `add_answer`: the answer goes at the end. */
    method AddAnswer(answer: string)
      modifies this
      ensures answers == old(answers) + [answer]
      ensures question == old(question) && answerers == old(answerers)
    {
      answers := answers + [answer];
    }

    /** `remove_answer`: an index past the end is refused and changes nothing;
        otherwise that answer is removed and the later ones move down. */
    method RemoveAnswer(answer: nat) returns (r: Option<()>)
      modifies this
      ensures r.None? <==> |old(answers)| <= answer
      ensures r.None? ==> answers == old(answers)
      ensures r.Some? ==> answers == RemoveAt(old(answers), answer)
      ensures question == old(question) && answerers == old(answerers)
    {
      if |answers| <= answer {
        return None;
      }
      answers := RemoveAt(answers, answer);
      r := Some(());
    }
  }
}
