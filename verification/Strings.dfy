/** Text helpers shared by the codec, the feed tokens and the configuration. ASCII only. */
module Strings {
  import opened Wrappers

  predicate IsSpace(c: char) {
    c == ' ' || c == '\t' || c == '\n' || c == '\r'
  }

  function Strip(s: string): string {
    if s == "" then s
    else if IsSpace(s[0]) then Strip(s[1..])
    else if IsSpace(s[|s| - 1]) then Strip(s[..|s| - 1])
    else s
  }

  function Lower(s: string): string {
    if s == "" then ""
    else [if 'A' <= s[0] <= 'Z' then (s[0] as int + 32) as char else s[0]] + Lower(s[1..])
  }

  predicate Contains(s: string, part: string) {
    exists i :: 0 <= i <= |s| && part <= s[i..]
  }

  /** The decimal digits of a number. */
  function Digits(n: nat): (s: string)
    ensures |s| > 0 && forall i :: 0 <= i < |s| ==> '0' <= s[i] <= '9'
  {
    var last := [('0' as int + n % 10) as char];
    if n < 10 then last else Digits(n / 10) + last
  }

  /** The number that a text of digits stands for; the empty text stands for 0. */
  function ParseDigits(s: string): Option<nat> {
    if s == "" then Some(0)
    else
      var last := s[|s| - 1];
      var before := ParseDigits(s[..|s| - 1]);
      if before.Some? && '0' <= last <= '9' then Some(10 * before.value + (last as int - '0' as int)) else None
  }

  lemma {:induction false} DigitsReadBack(n: nat)
    ensures ParseDigits(Digits(n)) == Some(n)
  {
    var s := Digits(n);
    if n >= 10 {
      DigitsReadBack(n / 10);
      assert s[..|s| - 1] == Digits(n / 10);
    }
  }

  // ---------- What these helpers do ----------

  ghost predicate AllSpaces(s: string) {
    forall i :: 0 <= i < |s| ==> s[i] == ' ' || s[i] == '\t' || s[i] == '\n' || s[i] == '\r'
  }

  /** The text is `core`, neither beginning nor ending with white space, between white space. */
  ghost predicate Wraps(s: string, core: string) {
    && (core != "" ==> !AllSpaces(core[..1]) && !AllSpaces(core[|core| - 1..]))
    && exists pre, post :: Around(s, pre, core, post)
  }

  ghost predicate Around(s: string, pre: string, core: string, post: string) {
    s == pre + core + post && AllSpaces(pre) && AllSpaces(post)
  }

  lemma SpaceBefore(c: char, s: string, core: string)
    requires Wraps(s, core) && AllSpaces([c])
    ensures Wraps([c] + s, core)
  {
    var pre, post :| Around(s, pre, core, post);
    assert Around([c] + s, [c] + pre, core, post);
  }

  lemma SpaceAfter(s: string, c: char, core: string)
    requires Wraps(s, core) && AllSpaces([c])
    ensures Wraps(s + [c], core)
  {
    var pre, post :| Around(s, pre, core, post);
    assert Around(s + [c], pre, core, post + [c]);
  }

  /** Stripping leaves the text that stands between white space. */
  lemma {:induction false} StripUnwraps(s: string)
    ensures Wraps(s, Strip(s))
    decreases |s|
  {
    hide Wraps;
    if s == "" {
      WrapsItself(s);
    } else if IsSpace(s[0]) {
      StripUnwraps(s[1..]);
      SpaceBefore(s[0], s[1..], Strip(s[1..]));
      assert [s[0]] + s[1..] == s;
    } else if IsSpace(s[|s| - 1]) {
      StripUnwraps(s[..|s| - 1]);
      SpaceAfter(s[..|s| - 1], s[|s| - 1], Strip(s[..|s| - 1]));
      assert s[..|s| - 1] + [s[|s| - 1]] == s;
    } else {
      WrapsItself(s);
    }
  }

  lemma WrapsItself(s: string)
    requires s != "" ==> !AllSpaces(s[..1]) && !AllSpaces(s[|s| - 1..])
    ensures Wraps(s, s)
  {
    assert Around(s, "", s, "");
  }

  lemma {:induction false} LowerAt(s: string, i: nat)
    requires i < |s|
    ensures |Lower(s)| == |s|
    ensures Lower(s)[i] as int == s[i] as int + if 'A' <= s[i] <= 'Z' then 'a' as int - 'A' as int else 0
  {
    if i > 0 {
      LowerAt(s[1..], i - 1);
    } else if |s| > 1 {
      LowerAt(s[1..], 0);
    }
  }

  ghost predicate Occurs(part: string, s: string) {
    exists a, b :: s == a + part + b
  }

  lemma ContainsIff(s: string, part: string)
    ensures Contains(s, part) <==> Occurs(part, s)
  {
    if Contains(s, part) {
      var i :| 0 <= i <= |s| && part <= s[i..];
      assert s == s[..i] + part + s[i..][|part|..];
    }
    if a, b :| s == a + part + b {
      assert s[|a|..] == part + b;
      assert part <= s[|a|..];
    }
  }

  lemma DigitsExample()
    ensures Digits(9876543210) == "9876543210"
  {
    assert Digits(9) == "9" && Digits(98) == "98" && Digits(987) == "987" && Digits(9876) == "9876";
    assert Digits(98765) == "98765" && Digits(987654) == "987654" && Digits(9876543) == "9876543";
    assert Digits(98765432) == "98765432" && Digits(987654321) == "987654321";
  }
}
