/** Failure-carrying results and the few text operations several components share. */
module Common {

  datatype Option<+T> = None | Some(value: T)

  datatype Result<+T, +E> = Ok(value: T) | Err(error: E)

  /** The characters Python's `str.strip()` removes. */
  predicate IsSpace(c: char) {
    var n := c as int;
    || 0x09 <= n <= 0x0D || 0x1C <= n <= 0x20 || n == 0x85 || n == 0xA0 || n == 0x1680
    || 0x2000 <= n <= 0x200A || n == 0x2028 || n == 0x2029 || n == 0x202F || n == 0x205F || n == 0x3000
  }

  function StripLeft(s: string): string {
    if s != [] && IsSpace(s[0]) then StripLeft(s[1..]) else s
  }

  function StripRight(s: string): string {
    if s != [] && IsSpace(s[|s| - 1]) then StripRight(s[..|s| - 1]) else s
  }

  function Strip(s: string): string {
    StripRight(StripLeft(s))
  }

  function LowerChar(c: char): char {
    if 'A' <= c <= 'Z' then (c as int + 32) as char else c
  }

  /** `str.lower()` on the ASCII range; other letters are kept as they are. */
  function Lower(s: string): (r: string)
    ensures |r| == |s|
    ensures forall i :: 0 <= i < |s| ==> r[i] == LowerChar(s[i])
  {
    if s == [] then [] else [LowerChar(s[0])] + Lower(s[1..])
  }

  lemma Reassociate<T>(x: seq<T>, y: seq<T>, z: seq<T>)
    ensures x + (y + z) == x + y + z
  {
  }

  // --- What stripping does ------------------------------------------------------------------------

  predicate AllSpace(s: string) {
    forall i :: 0 <= i < |s| ==> IsSpace(s[i])
  }

  /** Stripping takes the white space off both ends and nothing else. */
  lemma {:induction false} LeftStripped(s: string)
    ensures exists left :: AllSpace(left) && s == left + StripLeft(s)
    ensures StripLeft(s) == "" || !IsSpace(StripLeft(s)[0])
  {
    hide IsSpace, AllSpace;
    if s != [] && IsSpace(s[0]) {
      LeftStripped(s[1..]);
      var left :| AllSpace(left) && s[1..] == left + StripLeft(s[1..]);
      OneMoreSpace(left, s[0]);
      Reassociate([s[0]], left, StripLeft(s[1..]));
      assert s == [s[0]] + s[1..];
    } else {
      NoSpace();
      assert s == [] + s;
    }
  }

  lemma {:induction false} RightStripped(s: string)
    ensures exists right :: AllSpace(right) && s == StripRight(s) + right
    ensures StripRight(s) == "" || !IsSpace(StripRight(s)[|StripRight(s)| - 1])
  {
    hide IsSpace, AllSpace;
    if s != [] && IsSpace(s[|s| - 1]) {
      var front, last := s[..|s| - 1], s[|s| - 1];
      RightStripped(front);
      var right :| AllSpace(right) && front == StripRight(front) + right;
      OneMoreSpace(right, last);
      Reassociate(StripRight(front), right, [last]);
      assert s == front + [last];
    } else {
      NoSpace();
      assert s == s + [];
    }
  }

  lemma OneMoreSpace(spaces: string, c: char)
    requires AllSpace(spaces) && IsSpace(c)
    ensures AllSpace(spaces + [c]) && AllSpace([c] + spaces)
  {
    hide IsSpace;
  }

  lemma NoSpace()
    ensures AllSpace([])
  {
  }

  lemma StrippedMeans(s: string)
    ensures exists left, right :: AllSpace(left) && AllSpace(right) && s == left + Strip(s) + right
    ensures IsTrimmed(Strip(s))
  {
    hide IsSpace, AllSpace;
    LeftStripped(s);
    RightStripped(StripLeft(s));
    var left :| AllSpace(left) && s == left + StripLeft(s);
    var right :| AllSpace(right) && StripLeft(s) == Strip(s) + right;
    assert s == left + Strip(s) + right;
    if Strip(s) != "" {
      assert StripLeft(s)[0] == Strip(s)[0];
    }
  }

  /** Begins and ends with something other than white space, or is empty. */
  predicate IsTrimmed(s: string) {
    s == "" || (!IsSpace(s[0]) && !IsSpace(s[|s| - 1]))
  }

  lemma {:induction false} StripLeftOf(left: string, s: string)
    requires AllSpace(left)
    ensures StripLeft(left + s) == StripLeft(s)
  {
    hide IsSpace;
    if left == [] {
      assert left + s == s;
    } else {
      assert (left + s)[1..] == left[1..] + s;
      StripLeftOf(left[1..], s);
    }
  }

  lemma {:induction false} StripRightOf(s: string, right: string)
    requires AllSpace(right)
    ensures StripRight(s + right) == StripRight(s)
  {
    hide IsSpace;
    if right == [] {
      assert s + right == s;
    } else {
      assert (s + right)[..|s + right| - 1] == s + right[..|right| - 1];
      StripRightOf(s, right[..|right| - 1]);
    }
  }

  /** There is one way to take white space off both ends until none is left there. */
  lemma StripIs(left: string, core: string, right: string)
    requires AllSpace(left) && AllSpace(right) && IsTrimmed(core)
    ensures Strip(left + core + right) == core
  {
    hide IsSpace, AllSpace;
    assert left + core + right == left + (core + right);
    StripLeftOf(left, core + right);
    if core == "" {
      assert core + right == right + [] == right;
      StripLeftOf(right, []);
    } else {
      assert (core + right)[0] == core[0];
      StripRightOf(core, right);
    }
  }

  /** White space around this, and nothing else. */
  ghost predicate IsAround(s: string, core: string) {
    IsTrimmed(core) && exists left, right :: AllSpace(left) && AllSpace(right) && s == left + core + right
  }

  lemma AroundIsStripped(s: string, core: string)
    ensures IsAround(s, core) <==> core == Strip(s)
  {
    hide Strip, IsSpace, AllSpace, IsTrimmed;
    StrippedMeans(s);
    if IsAround(s, core) {
      var left, right :| AllSpace(left) && AllSpace(right) && s == left + core + right;
      StripIs(left, core, right);
    }
  }
}
