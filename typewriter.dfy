/**
 The typewriter of components/ui/typewriter-effect.tsx. Its effect reads the four state
 fields and changes them by one step, either at once or when a timer fires; here each
 such change is one `Tick`, and the timer delays are not modelled.
 */
module Typewriter {

  /** `currentWordIndex`, `currentText`, `isDeleting`, `isWaiting`. */
  datatype Frame = Frame(index: nat, text: string, deleting: bool, waiting: bool)

  const Start := Frame(0, "", false, false)

  /** The index is in range, the text is a prefix of the current word, and the flags exclude each other. */
  predicate Inv(words: seq<string>, f: Frame) {
    f.index < |words| && f.text <= words[f.index] && !(f.deleting && f.waiting)
  }

  /** One run of the effect, with the timer it schedules already fired. */
  function Next(words: seq<string>, f: Frame): (r: Frame)
    requires Inv(words, f)
    ensures Inv(words, r)
    ensures f.deleting && f.text == "" ==> r.index == (f.index + 1) % |words|
    ensures !(f.deleting && f.text == "") ==> r.index == f.index
    ensures f.waiting ==> r == f.(waiting := false, deleting := true)
    ensures f.deleting && f.text != "" ==>
      r.deleting && !r.waiting && r.text < f.text && |r.text| == |f.text| - 1
    ensures f.deleting && f.text == "" ==> r.text == "" && !r.deleting && !r.waiting
    ensures !f.waiting && !f.deleting && f.text != words[f.index] ==>
      !r.deleting && !r.waiting && f.text < r.text && |r.text| == |f.text| + 1
    ensures !f.waiting && !f.deleting && f.text == words[f.index] ==> r == f.(waiting := true)
  {
    var word := words[f.index];
    if f.waiting then
      f.(waiting := false, deleting := true)
    else if f.deleting then
      if f.text == "" then f.(deleting := false, index := (f.index + 1) % |words|)
      else f.(text := word[..|f.text| - 1])
    else if f.text == word then
      f.(waiting := true)
    else
      f.(text := word[..|f.text| + 1])
  }

  /** `n` ticks from `f`. */
  function Run(words: seq<string>, f: Frame, n: nat): (r: Frame)
    requires Inv(words, f)
    ensures Inv(words, r)
    decreases n
  {
    if n == 0 then f else Run(words, Next(words, f), n - 1)
  }

  lemma {:induction false} RunAdds(words: seq<string>, f: Frame, a: nat, b: nat)
    requires Inv(words, f)
    ensures Run(words, f, a + b) == Run(words, Run(words, f, a), b)
    decreases a
  {
    if a > 0 {
      RunAdds(words, Next(words, f), a - 1, b);
    }
  }

  /** Typing from the first `k` characters of word `i` reaches the whole word, one character per tick. */
  lemma {:induction false} TypesOut(words: seq<string>, i: nat, k: nat)
    requires i < |words| && k <= |words[i]|
    ensures Run(words, Frame(i, words[i][..k], false, false), |words[i]| - k) == Frame(i, words[i], false, false)
    decreases |words[i]| - k
  {
    var w := words[i];
    if k < |w| {
      assert w[..k] != w by { assert |w[..k]| == k; }
      assert Next(words, Frame(i, w[..k], false, false)) == Frame(i, w[..k + 1], false, false);
      TypesOut(words, i, k + 1);
    } else {
      assert w[..k] == w;
    }
  }

  /** Deleting from the first `k` characters of word `i` reaches the empty text, one character per tick. */
  lemma {:induction false} ErasesOut(words: seq<string>, i: nat, k: nat)
    requires i < |words| && k <= |words[i]|
    ensures Run(words, Frame(i, words[i][..k], true, false), k) == Frame(i, "", true, false)
    decreases k
  {
    var w := words[i];
    if k > 0 {
      assert Next(words, Frame(i, w[..k], true, false)) == Frame(i, w[..k - 1], true, false);
      ErasesOut(words, i, k - 1);
    }
  }

  /**
   From the empty text of word `i`, the effect types the whole word, waits, deletes it
   and moves to the next word: `2 * |w| + 3` ticks in all.
   */
  lemma WordCycle(words: seq<string>, i: nat)
    requires i < |words|
    ensures Run(words, Frame(i, "", false, false), 2 * |words[i]| + 3) == Frame((i + 1) % |words|, "", false, false)
  {
    var w := words[i];
    var n := |w|;
    var start := Frame(i, "", false, false);
    assert w[..0] == "";
    TypesOut(words, i, 0);
    var typed := Frame(i, w, false, false);
    assert Run(words, start, n) == typed;
    var waiting := Frame(i, w, false, true);
    assert Run(words, typed, 1) == waiting;
    var erasing := Frame(i, w, true, false);
    assert Run(words, waiting, 1) == erasing;
    assert w[..n] == w;
    ErasesOut(words, i, n);
    var erased := Frame(i, "", true, false);
    assert Run(words, erasing, n) == erased;
    assert Run(words, erased, 1) == Frame((i + 1) % |words|, "", false, false);
    RunAdds(words, start, n, 1);
    RunAdds(words, start, n + 1, 1);
    RunAdds(words, start, n + 2, n);
    RunAdds(words, start, 2 * n + 2, 1);
  }

  class TypewriterEffect {
    const words: seq<string>
    var currentWordIndex: nat
    var currentText: string
    var isDeleting: bool
    var isWaiting: bool

    function State(): Frame
      reads this
    {
      Frame(currentWordIndex, currentText, isDeleting, isWaiting)
    }

    ghost predicate Valid()
      reads this
    {
      Inv(words, State())
    }

    /** The initial state of the four `useState` hooks; `words[0]` is read on the first run, so there must be a word. */
    constructor (words: seq<string>)
      requires |words| > 0
      ensures this.words == words
      ensures Valid() && State() == Start
    {
      this.words := words;
      currentWordIndex := 0;
      currentText := "";
      isDeleting := false;
      isWaiting := false;
    }

    /** One run of the effect body, with the timer it sets, if any, fired. */
    method Tick()
      requires Valid()
      modifies this
      ensures Valid() && State() == Next(words, old(State()))
    {
      var currentWord := words[currentWordIndex];
      if isWaiting {
        isWaiting := false;
        isDeleting := true;
        return;
      }
      if isDeleting {
        if currentText == "" {
          isDeleting := false;
          currentWordIndex := (currentWordIndex + 1) % |words|;
        } else {
          currentText := currentWord[..|currentText| - 1];
        }
      } else {
        if currentText == currentWord {
          isWaiting := true;
        } else {
          currentText := currentWord[..|currentText| + 1];
        }
      }
    }
  }
}
