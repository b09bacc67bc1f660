/** The hero section's typed-text animator: a timer-driven machine that types a phrase
    one character per tick, holds it, deletes it one character per tick and moves on
    to the next phrase of a fixed rotation. */
module Typing {
  import opened Js

  const Phrases: seq<string> := [
    "a computer engineering student with a strong focus on web development, aiming to build innovative and user-friendly websites.",
    "a full-stack developer specializing in the MERN stack.",
    "a problem-solver ready to take on new challenges."
  ]

  /** Delays (milliseconds) the animator sets for its next tick. */
  const InsertDelay: nat := 70
  const DeleteDelay: nat := 40
  const NextPhraseDelay: nat := 500

  /** The component's state; `switchPending` stands for the scheduled
      one-shot timer that turns deleting on. */
  datatype TypingState = TypingState(
    text: string,
    deleting: bool,
    loopNum: nat,
    typingSpeed: nat,
    switchPending: bool)

  const Initial: TypingState := TypingState("", false, 0, InsertDelay, false)

  /** The index of the active phrase, `loopNum % phrases.length`. */
  function ActiveIndex(loopNum: nat): (i: nat)
    ensures i < |Phrases|
    ensures loopNum < |Phrases| ==> i == loopNum
  {
    loopNum % |Phrases|
  }

  function ActivePhrase(s: TypingState): string
  {
    Phrases[ActiveIndex(s.loopNum)]
  }

  predicate IsPrefix(p: string, s: string)
  {
    |p| <= |s| && s[..|p|] == p
  }

  /** What the machine keeps true between events: the text shown is a prefix of the
      active phrase, and the switch to deleting is only pending while the whole
      phrase is shown and deleting is off. */
  predicate Inv(s: TypingState)
  {
    && IsPrefix(s.text, ActivePhrase(s))
    && (s.switchPending ==> !s.deleting && s.text == ActivePhrase(s))
  }

  /** One run of the tick callback. Every comparison reads the state the tick
      started from; the speed written last wins. */
  function Step(s: TypingState): (r: TypingState)
    ensures IsPrefix(r.text, ActivePhrase(s))
    ensures r.deleting ==> s.deleting
    ensures r.switchPending ==> s.switchPending || (!s.deleting && s.text == ActivePhrase(s))
    ensures r.loopNum == s.loopNum || (s.deleting && s.text == "" && r.loopNum == s.loopNum + 1)
  {
    var full := ActivePhrase(s);
    var text := if s.deleting then Substring(full, 0, |s.text| - 1)
                else Substring(full, 0, |s.text| + 1);
    var speed := if s.deleting then DeleteDelay else InsertDelay;
    if !s.deleting && s.text == full then
      s.(text := text, typingSpeed := speed, switchPending := true)
    else if s.deleting && s.text == "" then
      s.(text := text, deleting := false, loopNum := s.loopNum + 1, typingSpeed := NextPhraseDelay)
    else
      s.(text := text, typingSpeed := speed)
  }

  /** The hold timer's callback: it turns deleting on, and is no longer pending. */
  function SwitchFires(s: TypingState): (r: TypingState)
    ensures r.deleting && !r.switchPending
    ensures r.text == s.text && r.loopNum == s.loopNum && r.typingSpeed == s.typingSpeed
  {
    s.(deleting := true, switchPending := false)
  }

  /** `n` consecutive ticks with no timer firing in between. */
  function Run(s: TypingState, n: nat): TypingState
    decreases n
  {
    if n == 0 then s else Run(Step(s), n - 1)
  }

  lemma InitialSatisfiesInv()
    ensures Inv(Initial) && ActiveIndex(Initial.loopNum) == 0
  {
  }

  lemma StepKeepsInv(s: TypingState)
    requires Inv(s)
    ensures Inv(Step(s))
  {
  }

  lemma SwitchFiresKeepsInv(s: TypingState)
    requires Inv(s) && s.switchPending
    ensures Inv(SwitchFires(s))
    ensures SwitchFires(s).text == ActivePhrase(s) && SwitchFires(s).deleting
  {
  }

  /** An inserting tick on a strict prefix reveals exactly the next character. */
  lemma InsertingTickGrows(s: TypingState)
    requires Inv(s) && !s.deleting && |s.text| < |ActivePhrase(s)|
    ensures Step(s).text == ActivePhrase(s)[..|s.text| + 1]
    ensures |Step(s).text| == |s.text| + 1 && Step(s).text[..|s.text|] == s.text
    ensures Step(s).typingSpeed == InsertDelay
    ensures !Step(s).deleting && Step(s).loopNum == s.loopNum
    ensures Step(s).switchPending == s.switchPending
  {
  }

  /** An inserting tick on the whole phrase leaves it shown and schedules the switch. */
  lemma InsertingTickAtFullPhraseHolds(s: TypingState)
    requires Inv(s) && !s.deleting && s.text == ActivePhrase(s)
    ensures Step(s) == s.(typingSpeed := InsertDelay, switchPending := true)
  {
  }

  /** A tick schedules the switch to deleting only when the whole phrase is shown. */
  lemma SwitchScheduledOnlyAtFullPhrase(s: TypingState)
    requires Inv(s) && !s.switchPending && Step(s).switchPending
    ensures !s.deleting && s.text == ActivePhrase(s) && Step(s).text == ActivePhrase(s)
  {
  }

  /** A deleting tick on non-empty text removes exactly the last character. */
  lemma DeletingTickShrinks(s: TypingState)
    requires Inv(s) && s.deleting && s.text != ""
    ensures Step(s).text == s.text[..|s.text| - 1]
    ensures Step(s).typingSpeed == DeleteDelay
    ensures Step(s).deleting && Step(s).loopNum == s.loopNum && !Step(s).switchPending
  {
  }

  /** A deleting tick on empty text moves on to the next phrase. */
  lemma DeletingTickAtEmptyAdvances(s: TypingState)
    requires Inv(s) && s.deleting && s.text == ""
    ensures Step(s) == TypingState("", false, s.loopNum + 1, NextPhraseDelay, false)
  {
  }

  /** A tick never turns deleting on (only the hold timer does), and the phrase only
      changes on a deleting tick over empty text, by exactly one. */
  lemma StepTransitions(s: TypingState)
    ensures !s.deleting ==> !Step(s).deleting
    ensures Step(s).loopNum != s.loopNum ==> s.deleting && s.text == "" && Step(s).loopNum == s.loopNum + 1
  {
  }

  /** After the last phrase, the rotation wraps to the first one. */
  lemma WrapAround(loopNum: nat)
    ensures ActiveIndex(loopNum + 1) == (ActiveIndex(loopNum) + 1) % |Phrases|
    ensures ActiveIndex(loopNum) == |Phrases| - 1 ==> ActiveIndex(loopNum + 1) == 0
  {
  }

  lemma {:induction false} RunKeepsInv(s: TypingState, n: nat)
    requires Inv(s)
    ensures Inv(Run(s, n))
    decreases n
  {
    if n > 0 {
      StepKeepsInv(s);
      RunKeepsInv(Step(s), n - 1);
    }
  }

  /** Typing from any prefix reaches the whole phrase, without deleting and without
      changing phrase, after one tick per missing character. */
  lemma {:induction false} TypesWholePhrase(s: TypingState)
    requires Inv(s) && !s.deleting && !s.switchPending
    ensures var r := Run(s, |ActivePhrase(s)| - |s.text|);
      r.text == ActivePhrase(s) && !r.deleting && !r.switchPending && r.loopNum == s.loopNum
    decreases |ActivePhrase(s)| - |s.text|
  {
    if |s.text| < |ActivePhrase(s)| {
      InsertingTickGrows(s);
      TypesWholePhrase(Step(s));
    }
  }

  /** Deleting from any prefix reaches the empty text, still deleting and on the same
      phrase, after one tick per character shown. */
  lemma {:induction false} DeletesWholePhrase(s: TypingState)
    requires Inv(s) && s.deleting
    ensures var r := Run(s, |s.text|);
      r.text == "" && r.deleting && !r.switchPending && r.loopNum == s.loopNum
    decreases |s.text|
  {
    if s.text != "" {
      DeletingTickShrinks(s);
      DeletesWholePhrase(Step(s));
    }
  }

  /** One whole cycle on a phrase: type it, hold it, let the timer switch, delete it,
      and tick once more over the empty text. The machine then starts the next phrase
      from the empty text after the longer pause. */
  lemma {:induction false} FullCycle(s: TypingState)
    requires s.text == "" && !s.deleting && !s.switchPending
    ensures var n := |ActivePhrase(s)|;
      var typed := Run(s, n);
      var held := Step(typed);
      var erased := Run(SwitchFires(held), n);
      typed.text == ActivePhrase(s) && held.switchPending
      && Step(erased) == TypingState("", false, s.loopNum + 1, NextPhraseDelay, false)
  {
    var n := |ActivePhrase(s)|;
    assert Inv(s);
    TypesWholePhrase(s);
    var typed := Run(s, n);
    InsertingTickAtFullPhraseHolds(typed);
    var held := Step(typed);
    SwitchFiresKeepsInv(held);
    var switched := SwitchFires(held);
    DeletesWholePhrase(switched);
    var erased := Run(switched, n);
    RunKeepsInv(switched, n);
    DeletingTickAtEmptyAdvances(erased);
  }

  /** The component instance: its state fields and the timer events that rewrite them. */
  class Hero {
    var text: string
    var isDeleting: bool
    var loopNum: nat
    var typingSpeed: nat
    var switchPending: bool

    function State(): TypingState
      reads this
    {
      TypingState(text, isDeleting, loopNum, typingSpeed, switchPending)
    }

    ghost predicate Valid()
      reads this
    {
      Inv(State())
    }

    constructor ()
      ensures State() == Initial && Valid()
    {
      text := "";
      isDeleting := false;
      loopNum := 0;
      typingSpeed := InsertDelay;
      switchPending := false;
    }

    /** The tick callback `handleTyping`. */
    method HandleTyping()
      requires Valid()
      modifies this
      ensures Valid()
      ensures State() == Step(old(State()))
    {
      var i := loopNum % |Phrases|;
      var fullText := Phrases[i];
      var wasDeleting, oldText := isDeleting, text;
      text := if wasDeleting then Substring(fullText, 0, |oldText| - 1)
              else Substring(fullText, 0, |oldText| + 1);
      if wasDeleting {
        typingSpeed := DeleteDelay;
      } else {
        typingSpeed := InsertDelay;
      }
      if !wasDeleting && oldText == fullText {
        switchPending := true;
      } else if wasDeleting && oldText == "" {
        isDeleting := false;
        loopNum := loopNum + 1;
        typingSpeed := NextPhraseDelay;
      }
      StepKeepsInv(old(State()));
    }

    /** The hold timer's callback, `setIsDeleting(true)`; it only exists while scheduled. */
    method HoldTimerFires()
      requires Valid() && switchPending
      modifies this
      ensures Valid()
      ensures State() == SwitchFires(old(State()))
      ensures isDeleting && text == ActivePhrase(State())
    {
      isDeleting := true;
      switchPending := false;
    }
  }
}
