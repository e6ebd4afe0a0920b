/** The Konami-code easter egg (components/konami-code-easter-egg.tsx): each key press
    appends its code to the remembered sequence, which keeps only as many codes as the
    Konami code has; when that window, joined with ',', equals the Konami code joined the
    same way, the egg triggers and the sequence starts again from empty. The updater is
    stated for any target sequence and used with the Konami code. */
module Konami {
  import opened Text

  const KonamiCode: seq<string> := ["ArrowUp", "ArrowUp", "ArrowDown", "ArrowDown", "ArrowLeft",
                                    "ArrowRight", "ArrowLeft", "ArrowRight", "KeyB", "KeyA"]

  /** The component's state: the remembered codes and the two flags the trigger sets. */
  datatype Egg = Egg(inputSequence: seq<string>, triggered: bool, showMessage: bool)

  const Initial := Egg([], false, false)

  /** `s.slice(-n)`: the last n elements, or all of them when there are fewer. */
  function Last(s: seq<string>, n: nat): (r: seq<string>)
    ensures |r| == if |s| <= n then |s| else n
    ensures r == s[|s| - |r|..]
  {
    if |s| <= n then s else s[|s| - n..]
  }

  /** The setInputSequence updater for one key press, watching for `target`. */
  function Press(target: seq<string>, st: Egg, code: string): (r: Egg)
    ensures |r.inputSequence| <= |target|
    ensures st.triggered ==> r.triggered
    ensures r.triggered != st.triggered ==> r.inputSequence == [] && r.showMessage
    ensures r.inputSequence == [] || r.inputSequence == Last(st.inputSequence + [code], |target|)
  {
    var newSequence := Last(st.inputSequence + [code], |target|);
    if Join(newSequence, ',') == Join(target, ',') then Egg([], true, true)
    else st.(inputSequence := newSequence)
  }

  /** The page's handler. */
  function KeyDown(st: Egg, code: string): Egg
  {
    Press(KonamiCode, st, code)
  }

  /** The state after pressing the target's first j keys, in order. */
  function TypeKeys(target: seq<string>, st: Egg, j: nat): Egg
    requires j <= |target|
  {
    if j == 0 then st else Press(target, TypeKeys(target, st, j - 1), target[j - 1])
  }

  /** No code holds the separator (key codes are identifiers such as "KeyA"). */
  predicate NoComma(s: seq<string>)
  {
    forall i :: 0 <= i < |s| ==> ',' !in s[i]
  }

  /** A target whose last code occurs nowhere else in it. */
  predicate LastKeyUnique(target: seq<string>)
  {
    |target| >= 1 && forall i :: 0 <= i < |target| - 1 ==> target[i] != target[|target| - 1]
  }

  lemma KonamiShape()
    ensures NoComma(KonamiCode) && LastKeyUnique(KonamiCode) && |KonamiCode| == 10
  {
  }

  /** For comma-free codes the joined comparison is sequence equality. */
  lemma MatchIsEquality(target: seq<string>, w: seq<string>)
    requires |w| >= 1 && |target| >= 1 && NoComma(w) && NoComma(target)
    ensures Join(w, ',') == Join(target, ',') <==> w == target
  {
    SplitJoin(w, ',');
    SplitJoin(target, ',');
  }

  /** Taking the last n twice is taking the last n once. */
  lemma LastOfLast(a: seq<string>, c: string, n: nat)
    ensures Last(Last(a, n) + [c], n) == Last(a + [c], n)
  {
  }

  lemma NoCommaAppend(a: seq<string>, b: seq<string>)
    requires NoComma(a) && NoComma(b)
    ensures NoComma(a + b)
  {
    forall i | 0 <= i < |a + b|
      ensures ',' !in (a + b)[i]
    {
      if i >= |a| {
        assert (a + b)[i] == b[i - |a|];
      }
    }
  }

  /** The window of a comma-free history is comma-free. */
  lemma WindowNoComma(a: seq<string>, n: nat)
    requires NoComma(a)
    ensures NoComma(Last(a, n))
  {
    var w := Last(a, n);
    forall i | 0 <= i < |w|
      ensures ',' !in w[i]
    {
      assert w[i] == a[|a| - |w| + i];
    }
  }

  /** One press, for comma-free codes: the egg triggers exactly when the new window is
      the target. */
  lemma PressCases(target: seq<string>, st: Egg, code: string)
    requires |target| >= 1 && NoComma(target) && NoComma(st.inputSequence) && ',' !in code
    ensures var w := Last(st.inputSequence + [code], |target|);
      Press(target, st, code) == if w == target then Egg([], true, true) else st.(inputSequence := w)
  {
    var ext := st.inputSequence + [code];
    NoCommaAppend(st.inputSequence, [code]);
    WindowNoComma(ext, |target|);
    MatchIsEquality(target, Last(ext, |target|));
  }

  /** A window ending in a key other than the target's last is not the target. */
  lemma WindowEndsEarly(target: seq<string>, all: seq<string>, code: string)
    requires LastKeyUnique(target) && code != target[|target| - 1]
    ensures Last(all + [code], |target|) != target
  {
    var w := Last(all + [code], |target|);
    assert w[|w| - 1] == code;
  }

  /** The window after the target's last key, typed after the rest of it, is the target. */
  lemma WindowCompletes(target: seq<string>, all: seq<string>)
    requires |target| >= 1 && |all| >= |target| - 1
    requires all[|all| - (|target| - 1)..] == target[..|target| - 1]
    ensures Last(all + [target[|target| - 1]], |target|) == target
  {
    var ext := all + [target[|target| - 1]];
    assert ext[|ext| - |target|..] == all[|all| - (|target| - 1)..] + [target[|target| - 1]];
    assert target == target[..|target| - 1] + [target[|target| - 1]];
  }

  /** One more key of the target, after its first j - 1 keys: the window ending in any
      key but the last is not the target; the window after the last key is. */
  lemma TargetKey(target: seq<string>, before: Egg, all: seq<string>, j: nat)
    requires NoComma(target) && LastKeyUnique(target) && 1 <= j <= |target|
    requires NoComma(all) && before.inputSequence == Last(all, |target|)
    requires |all| >= j - 1 && all[|all| - (j - 1)..] == target[..j - 1]
    ensures j < |target| ==>
      Press(target, before, target[j - 1]) == before.(inputSequence := Last(all + [target[j - 1]], |target|))
    ensures j == |target| ==> Press(target, before, target[j - 1]) == Egg([], true, true)
  {
    var code := target[j - 1];
    WindowNoComma(all, |target|);
    PressCases(target, before, code);
    LastOfLast(all, code, |target|);
    if j < |target| {
      WindowEndsEarly(target, all, code);
    } else {
      WindowCompletes(target, all);
    }
  }

  /** The target's first j keys, typed after a history ending in `st`. */
  predicate TypedSoFar(target: seq<string>, st: Egg, j: nat, r: Egg)
    requires j <= |target|
  {
    if j < |target| then r == st.(inputSequence := Last(st.inputSequence + target[..j], |target|))
    else r == Egg([], true, true)
  }

  /** The history before the target's j-th key, as TargetKey wants it. */
  lemma HistoryBefore(target: seq<string>, hist: seq<string>, j: nat)
    requires NoComma(target) && NoComma(hist) && 1 <= j <= |target|
    ensures var all := hist + target[..j - 1];
      NoComma(all) && all + [target[j - 1]] == hist + target[..j] &&
      |all| >= j - 1 && all[|all| - (j - 1)..] == target[..j - 1]
  {
    var prefix := target[..j - 1];
    assert NoComma(prefix) by {
      forall i | 0 <= i < |prefix| ensures ',' !in prefix[i] {
        assert prefix[i] == target[i];
      }
    }
    NoCommaAppend(hist, prefix);
    assert target[..j] == prefix + [target[j - 1]];
    var all := hist + prefix;
    assert all[|all| - (j - 1)..] == prefix;
  }

  /** The induction step of TargetTriggersOnLastKey. */
  lemma TypedOneMore(target: seq<string>, st: Egg, j: nat)
    requires NoComma(target) && LastKeyUnique(target) && 1 <= j <= |target|
    requires NoComma(st.inputSequence)
    requires TypedSoFar(target, st, j - 1, TypeKeys(target, st, j - 1))
    ensures TypedSoFar(target, st, j, TypeKeys(target, st, j))
  {
    var all := st.inputSequence + target[..j - 1];
    HistoryBefore(target, st.inputSequence, j);
    var before := TypeKeys(target, st, j - 1);
    assert before == st.(inputSequence := Last(all, |target|));
    TargetKey(target, before, all, j);
  }

  /** Typing a comma-free target whose last key is unique triggers on its last key and
      not before, whatever was typed earlier (a reachable state remembers at most
      |target| comma-free codes): after j < |target| of its keys the window is the last
      codes typed and no trigger has happened; after all of them the egg has triggered
      and the sequence is empty. */
  lemma {:induction false} TargetTriggersOnLastKey(target: seq<string>, st: Egg, j: nat)
    requires NoComma(target) && LastKeyUnique(target) && j <= |target|
    requires NoComma(st.inputSequence) && |st.inputSequence| <= |target|
    ensures j < |target| ==>
      TypeKeys(target, st, j) == st.(inputSequence := Last(st.inputSequence + target[..j], |target|))
    ensures j == |target| ==> TypeKeys(target, st, j) == Egg([], true, true)
  {
    if j == 0 {
      assert target[..0] == [];
      assert st.inputSequence + [] == st.inputSequence;
    } else {
      TargetTriggersOnLastKey(target, st, j - 1);
      TypedOneMore(target, st, j);
    }
  }

  /** From any reachable state, typing the Konami code triggers the egg on the tenth key
      and not on an earlier one: until then every key leaves a non-empty window. */
  lemma KonamiTriggersOnTenthKey(st: Egg, j: nat)
    requires NoComma(st.inputSequence) && |st.inputSequence| <= 10 && j <= 10
    ensures 0 < j < 10 ==>
      TypeKeys(KonamiCode, st, j).inputSequence != [] && TypeKeys(KonamiCode, st, j).triggered == st.triggered
    ensures j == 10 ==> TypeKeys(KonamiCode, st, j) == Egg([], true, true)
  {
    KonamiShape();
    TargetTriggersOnLastKey(KonamiCode, st, j);
    if 0 < j < 10 {
      assert |st.inputSequence + KonamiCode[..j]| > 0;
    }
  }
}
