/**
 * The shape check behind the regular expression `^[^\s@]+@[^\s@]+\.[^\s@]+$`
 * that the email validator applies to the trimmed value.
 */
module EmailPattern {
  import opened Text

  /** One `[^\s@]+` run: non-empty, no whitespace, no `@`. */
  predicate Run(s: string) {
    |s| > 0 && forall i :: 0 <= i < |s| ==> !IsSpace(s[i]) && s[i] != '@'
  }

  /**
   * The regular expression read as a whole-string match: some `@` at `at` and
   * some `.` at `dot` cut the string into three runs. The middle run may itself
   * contain dots, so any dot with a run on each side will do, and so may
   * the last run: `a@b.c.` matches.
   */
  ghost predicate MatchesPattern(s: string): (m: bool)
    ensures m ==> 5 <= |s| && s[0] != '@' && !IsSpace(s[0]) && s[|s| - 1] != '@' && !IsSpace(s[|s| - 1])
  {
    exists at, dot :: 0 <= at < dot < |s| && s[at] == '@' && s[dot] == '.' &&
      Run(s[..at]) && Run(s[at + 1..dot]) && Run(s[dot + 1..])
  }

  predicate NoSpace(s: string) {
    forall i :: 0 <= i < |s| ==> !IsSpace(s[i])
  }

  /** `s[at]` is the one and only `@` in `s`. */
  predicate OnlyAtSignAt(s: string, at: int) {
    0 <= at < |s| && s[at] == '@' && forall j :: 0 <= j < |s| && j != at ==> s[j] != '@'
  }

  /** Some `.` after position `at + 1` with at least one character after it. */
  predicate DotInDomain(s: string, at: int) {
    0 <= at && exists dot :: at + 1 < dot < |s| - 1 && s[dot] == '.'
  }

  /**
   * The same shape in plain words: no whitespace, exactly one `@`, something
   * before it, and after it a `.` with at least one character on each side.
   */
  ghost predicate PlainShape(s: string) {
    NoSpace(s) && exists at :: 0 < at && OnlyAtSignAt(s, at) && DotInDomain(s, at)
  }

  lemma PatternImpliesPlain(s: string, at: int, dot: int)
    requires 0 <= at < dot < |s| && s[at] == '@' && s[dot] == '.'
    requires Run(s[..at]) && Run(s[at + 1..dot]) && Run(s[dot + 1..])
    ensures PlainShape(s)
  {
    forall k | 0 <= k < |s| ensures !IsSpace(s[k]) && (k != at ==> s[k] != '@') {
      if k < at {
        assert s[..at][k] == s[k];
      } else if at < k < dot {
        assert s[at + 1..dot][k - at - 1] == s[k];
      } else if dot < k {
        assert s[dot + 1..][k - dot - 1] == s[k];
      }
    }
    assert OnlyAtSignAt(s, at);
    assert DotInDomain(s, at);
  }

  lemma PlainImpliesPattern(s: string, at: int, dot: int)
    requires NoSpace(s) && 0 < at && OnlyAtSignAt(s, at)
    requires at + 1 < dot < |s| - 1 && s[dot] == '.'
    ensures MatchesPattern(s)
  {
    assert Run(s[..at]) by {
      forall k | 0 <= k < at ensures !IsSpace(s[..at][k]) && s[..at][k] != '@' {
        assert s[..at][k] == s[k];
      }
    }
    var host := s[at + 1..dot];
    assert Run(host) by {
      forall k | 0 <= k < |host| ensures !IsSpace(host[k]) && host[k] != '@' {
        assert host[k] == s[at + 1 + k];
      }
    }
    var tld := s[dot + 1..];
    assert Run(tld) by {
      forall k | 0 <= k < |tld| ensures !IsSpace(tld[k]) && tld[k] != '@' {
        assert tld[k] == s[dot + 1 + k];
      }
    }
  }

  /** The regular expression accepts exactly the strings of the plain shape. */
  lemma PatternIffPlainShape(s: string)
    ensures MatchesPattern(s) <==> PlainShape(s)
  {
    if MatchesPattern(s) {
      var at, dot :| 0 <= at < dot < |s| && s[at] == '@' && s[dot] == '.' &&
        Run(s[..at]) && Run(s[at + 1..dot]) && Run(s[dot + 1..]);
      PatternImpliesPlain(s, at, dot);
    }
    if PlainShape(s) {
      var at :| 0 < at && OnlyAtSignAt(s, at) && DotInDomain(s, at);
      var dot :| at + 1 < dot < |s| - 1 && s[dot] == '.';
      PlainImpliesPattern(s, at, dot);
    }
  }

  /**
   * `EMAIL_PATTERN.test(s)` as a single left-to-right scan: reject on
   * whitespace or a second `@`, remember where the `@` is, and note whether
   * a dot has been seen with a character between it and the `@` and a
   * character after it.
   */
  method Test(s: string) returns (ok: bool)
    ensures ok == PlainShape(s)
    ensures ok == MatchesPattern(s)
  {
    var at := -1;
    var sawDot := false;
    var i := 0;
    while i < |s|
      invariant 0 <= i <= |s|
      invariant NoSpace(s[..i])
      invariant -1 <= at < i
      invariant at == -1 ==> forall j :: 0 <= j < i ==> s[j] != '@'
      invariant at >= 0 ==> s[at] == '@' && forall j :: 0 <= j < i && j != at ==> s[j] != '@'
      invariant sawDot <==> at >= 0 && exists d :: at + 1 < d < i && d < |s| - 1 && s[d] == '.'
    {
      if IsSpace(s[i]) {
        assert !NoSpace(s);
        PatternIffPlainShape(s);
        return false;
      }
      if s[i] == '@' {
        if at >= 0 {
          assert forall a :: OnlyAtSignAt(s, a) ==> a == at && a == i;
          PatternIffPlainShape(s);
          return false;
        }
        at := i;
      } else if s[i] == '.' && at >= 0 && at + 1 < i && i < |s| - 1 {
        sawDot := true;
      }
      assert s[..i + 1] == s[..i] + [s[i]];
      i := i + 1;
    }
    assert s[..i] == s;
    ok := at > 0 && sawDot;
    if ok {
      assert OnlyAtSignAt(s, at) && DotInDomain(s, at);
    }
    PatternIffPlainShape(s);
  }

  /** A character allowed in every part of an address: not whitespace, not `@`, not `.`. */
  predicate Plain(c: char) {
    !IsSpace(c) && c != '@' && c != '.'
  }

  // What the pattern decides on short addresses built from plain characters
  // `x`, `y`, `z` and `w` (for instance `a@b.c`).

  lemma PatternAcceptsAddress(x: char, y: char, z: char)
    requires Plain(x) && Plain(y) && Plain(z)
    ensures MatchesPattern([x, '@', y, '.', z])
  {
    var s := [x, '@', y, '.', z];
    assert NoSpace(s) && OnlyAtSignAt(s, 1);
    PlainImpliesPattern(s, 1, 3);
  }

  /** `a@b..c`: the host run may itself end in a dot. */
  lemma PatternAcceptsDoubleDot(x: char, y: char, z: char)
    requires Plain(x) && Plain(y) && Plain(z)
    ensures MatchesPattern([x, '@', y, '.', '.', z])
  {
    var s := [x, '@', y, '.', '.', z];
    assert NoSpace(s) && OnlyAtSignAt(s, 1);
    PlainImpliesPattern(s, 1, 3);
  }

  /** `a@b.c.d`: more than one dot after the `@`. */
  lemma PatternAcceptsTwoDots(x: char, y: char, z: char, w: char)
    requires Plain(x) && Plain(y) && Plain(z) && Plain(w)
    ensures MatchesPattern([x, '@', y, '.', z, '.', w])
  {
    var s := [x, '@', y, '.', z, '.', w];
    assert NoSpace(s) && OnlyAtSignAt(s, 1);
    PlainImpliesPattern(s, 1, 3);
  }

  /** `a@b`: no dot after the `@`. */
  lemma PatternRejectsNoDot(x: char, y: char)
    requires Plain(x) && Plain(y)
    ensures !MatchesPattern([x, '@', y])
  {
    var s := [x, '@', y];
    assert forall a :: OnlyAtSignAt(s, a) ==> a == 1;
    PatternIffPlainShape(s);
  }

  /** `@b.c`: nothing before the `@`. */
  lemma PatternRejectsEmptyLocalPart(y: char, z: char)
    requires Plain(y) && Plain(z)
    ensures !MatchesPattern(['@', y, '.', z])
  {
    var s := ['@', y, '.', z];
    assert forall a :: OnlyAtSignAt(s, a) ==> a == 0;
    PatternIffPlainShape(s);
  }

  /** `a@.b`: nothing between the `@` and the dot. */
  lemma PatternRejectsEmptyHost(x: char, y: char)
    requires Plain(x) && Plain(y)
    ensures !MatchesPattern([x, '@', '.', y])
  {
    var s := [x, '@', '.', y];
    assert forall a :: OnlyAtSignAt(s, a) ==> a == 1;
    PatternIffPlainShape(s);
  }

  /** `a@b.`: nothing after the dot. */
  lemma PatternRejectsTrailingDot(x: char, y: char)
    requires Plain(x) && Plain(y)
    ensures !MatchesPattern([x, '@', y, '.'])
  {
    var s := [x, '@', y, '.'];
    assert forall a :: OnlyAtSignAt(s, a) ==> a == 1;
    PatternIffPlainShape(s);
  }

  /** `a b@c.d`: whitespace inside the value. */
  lemma PatternRejectsInnerSpace(x: char, sp: char, y: char, z: char, w: char)
    requires Plain(x) && IsSpace(sp) && Plain(y) && Plain(z) && Plain(w)
    ensures !MatchesPattern([x, sp, y, '@', z, '.', w])
  {
    var s := [x, sp, y, '@', z, '.', w];
    assert IsSpace(s[1]);
    PatternIffPlainShape(s);
  }

  /** `a@b@c.d`: a second `@`. */
  lemma PatternRejectsSecondAtSign(x: char, y: char, z: char, w: char)
    requires Plain(x) && Plain(y) && Plain(z) && Plain(w)
    ensures !MatchesPattern([x, '@', y, '@', z, '.', w])
  {
    var s := [x, '@', y, '@', z, '.', w];
    assert s[1] == '@' && s[3] == '@';
    PatternIffPlainShape(s);
  }
}
