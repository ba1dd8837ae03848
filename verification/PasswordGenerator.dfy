/**
 Generating the provisioning password (pkg/provision/provision_windows_local_helpers.go):
 unbiased draws by rejection and an in-place Fisher-Yates shuffle.  The operating system's
 random source is a given sequence of bytes after which reading fails.
 */
module PasswordGenerator {
  import opened Sequences
  import opened Wrappers

  datatype RandomError = BadMaximum | ReadFailed

  // ----- Drawing below a maximum

  function Limit(max: nat): nat
    requires max > 0
  {
    256 - 256 % max
  }

  /** The first byte from position `from` on that falls below the limit, reduced, and the position behind it. */
  function Draw(bytes: seq<nat>, from: nat, max: nat): (d: Option<(nat, nat)>)
    requires max > 0
    ensures d.Some? ==> d.value.0 < max && from < d.value.1 <= |bytes|
    decreases |bytes| - from
  {
    if from >= |bytes| then None
    else if bytes[from] < Limit(max) then Some((bytes[from] % max, from + 1))
    else Draw(bytes, from + 1, max)
  }

  class RandomSource {
    const bytes: seq<nat>
    var next: nat

    constructor (bytes: seq<nat>)
      requires forall b :: b in bytes ==> b < 256
      ensures this.bytes == bytes && next == 0 && Valid()
    {
      this.bytes, next := bytes, 0;
    }

    ghost predicate Valid()
      reads this
    {
      next <= |bytes| && forall b :: b in bytes ==> b < 256
    }

    /** Draws until a byte falls below the limit; what it takes from the source is exactly that. */
    method RandomInt(max: int) returns (r: Result<nat, RandomError>)
      requires Valid()
      modifies this`next
      ensures Valid() && next >= old(next)
      ensures max <= 0 ==> r == Err(BadMaximum)
      ensures max > 0 && r.Err? ==> r == Err(ReadFailed)
      ensures max <= 0 ==> next == old(next)
      ensures r.Ok? ==> next > old(next) && bytes[next - 1] < Limit(max) && r.value == bytes[next - 1] % max && r.value < max
      ensures r.Ok? ==> forall k :: old(next) <= k < next - 1 ==> bytes[k] >= Limit(max)
      ensures r == Err(ReadFailed) ==> next == |bytes| && forall k :: old(next) <= k < next ==> bytes[k] >= Limit(max)
      ensures max > 0 ==> Draw(bytes, old(next), max) == if r.Ok? then Some((r.value, next)) else None
    {
      if max <= 0 {
        return Err(BadMaximum);
      }
      var limit := 256 - 256 % max;
      while next < |bytes|
        invariant Valid() && next >= old(next)
        invariant forall k :: old(next) <= k < next ==> bytes[k] >= limit
        invariant Draw(bytes, old(next), max) == Draw(bytes, next, max)
      {
        var drawn := bytes[next];
        next := next + 1;
        if drawn >= limit {
          continue;
        }
        return Ok(drawn % max);
      }
      return Err(ReadFailed);
    }
  }

  /** The bytes below n that are accepted and give r. */
  function Accepted(max: nat, r: nat, n: nat): set<nat>
    requires max > 0
  {
    set b: nat | b < n && b < Limit(max) && b % max == r
  }

  lemma LimitIsMultiple(max: nat)
    requires 1 <= max <= 256
    ensures Limit(max) == (256 / max) * max && 0 < Limit(max) <= 256
  {
    assert 256 == (256 / max) * max + 256 % max;
    assert 256 / max >= 1;
  }

  lemma {:induction false} AcceptedBlocks(max: nat, r: nat, k: nat)
    requires 1 <= max <= 256 && r < max && k <= 256 / max
    ensures |Accepted(max, r, k * max)| == k
  {
    if k == 0 {
      assert Accepted(max, r, 0) == {};
    } else {
      AcceptedBlocks(max, r, k - 1);
      NextBlock(max, r, k - 1);
    }
  }

  /** Each block of max bytes holds one more byte that gives r. */
  lemma NextBlock(max: nat, r: nat, k: nat)
    requires 1 <= max <= 256 && r < max && k < 256 / max
    ensures (k + 1) * max == k * max + max
    ensures k * max + r !in Accepted(max, r, k * max)
    ensures Accepted(max, r, (k + 1) * max) == Accepted(max, r, k * max) + {k * max + r}
  {
    var low := k * max;
    assert (k + 1) * max == low + max;
    BlocksBelowLimit(max, k);
    BlockRemainder(max, k, r);
    forall x: nat | x < low + max
      ensures x in Accepted(max, r, low + max) <==> x == low + r || x in Accepted(max, r, low)
    {
      if x >= low {
        BlockRemainder(max, k, x - low);
      }
    }
  }

  lemma BlocksBelowLimit(max: nat, k: nat)
    requires 1 <= max <= 256 && k < 256 / max
    ensures k * max + max <= Limit(max)
  {
    LimitIsMultiple(max);
    var d := 256 / max - (k + 1);
    assert d * max >= 0;
    assert (256 / max) * max == (k + 1) * max + d * max;
  }

  lemma BlockRemainder(max: nat, k: nat, x: nat)
    requires max > 0 && x < max
    ensures (k * max + x) % max == x
  {
    var q, rem := (k * max + x) / max, (k * max + x) % max;
    assert k * max + x == q * max + rem && 0 <= rem < max;
    var d := q - k;
    assert d * max == q * max - k * max == x - rem;
    assert d >= 1 ==> d * max >= max;
    assert d <= -1 ==> d * max + max <= 0;
  }

  /** No bias: of the 256 bytes the same number leads to each result. */
  lemma DrawsUnbiased(max: nat, r: nat)
    requires 1 <= max <= 256 && r < max
    ensures |Accepted(max, r, 256)| == 256 / max
  {
    LimitIsMultiple(max);
    AcceptedBlocks(max, r, 256 / max);
    assert Accepted(max, r, 256) == Accepted(max, r, (256 / max) * max);
  }

  /** Above 256, and only there, every byte is rejected: such a draw could never end. */
  lemma DrawsPossible(max: nat)
    requires max > 0
    ensures max > 256 <==> forall r: nat :: r < max ==> Accepted(max, r, 256) == {}
  {
    if max <= 256 {
      LimitIsMultiple(max);
      assert 0 in Accepted(max, 0, 256);
    } else {
      assert 256 % max == 256 && Limit(max) == 0;
    }
  }

  // ----- Fisher-Yates

  function Swap<T>(s: seq<T>, i: nat, j: nat): seq<T>
    requires i < |s| && j < |s|
  {
    s[i := s[j]][j := s[i]]
  }

  /** Position k is exchanged with position choices[k] at or below it. */
  predicate Choices(choices: seq<nat>, n: nat) {
    |choices| == n && forall k :: 0 <= k < n ==> choices[k] <= k
  }

  /** The exchanges for the positions k, k - 1, ..., 1. */
  function Shuffled<T>(s: seq<T>, choices: seq<nat>, k: nat): (t: seq<T>)
    requires Choices(choices, |s|) && (k < |s| || k == 0)
    ensures |t| == |s|
    decreases k
  {
    if k == 0 then s else Shuffled(Swap(s, k, choices[k]), choices, k - 1)
  }

  lemma SwapMultiset<T>(s: seq<T>, i: nat, j: nat)
    requires i < |s| && j < |s|
    ensures multiset(Swap(s, i, j)) == multiset(s)
  {
  }

  lemma {:induction false} ShuffledMultiset<T>(s: seq<T>, choices: seq<nat>, k: nat)
    requires Choices(choices, |s|) && (k < |s| || k == 0)
    ensures multiset(Shuffled(s, choices, k)) == multiset(s)
    decreases k
  {
    if k > 0 {
      SwapMultiset(s, k, choices[k]);
      ShuffledMultiset(Swap(s, k, choices[k]), choices, k - 1);
    }
  }

  /** Positions above k are left alone. */
  lemma {:induction false} ShuffledAbove<T>(s: seq<T>, choices: seq<nat>, k: nat, i: nat)
    requires Choices(choices, |s|) && (k < |s| || k == 0) && k < i < |s|
    ensures Shuffled(s, choices, k)[i] == s[i]
    decreases k
  {
    if k > 0 {
      ShuffledAbove(Swap(s, k, choices[k]), choices, k - 1, i);
    }
  }

  /** Different choices give different orders. */
  lemma {:induction false} ShuffleInjective<T>(s: seq<T>, c: seq<nat>, d: seq<nat>, k: nat)
    requires Choices(c, |s|) && Choices(d, |s|) && (k < |s| || k == 0) && Distinct(s)
    requires Shuffled(s, c, k) == Shuffled(s, d, k)
    ensures forall i :: 1 <= i <= k ==> c[i] == d[i]
    decreases k
  {
    if k > 0 {
      var a, b := Swap(s, k, c[k]), Swap(s, k, d[k]);
      ShuffledAbove(a, c, k - 1, k);
      ShuffledAbove(b, d, k - 1, k);
      assert s[c[k]] == a[k] == b[k] == s[d[k]];
      assert c[k] == d[k];
      SwapDistinct(s, k, c[k]);
      ShuffleInjective(a, c, d, k - 1);
    }
  }

  lemma SwapDistinct<T>(s: seq<T>, i: nat, j: nat)
    requires i < |s| && j < |s| && Distinct(s)
    ensures Distinct(Swap(s, i, j))
  {
  }

  /** Every order is reached: some choices turn s into any rearrangement t of it. */
  lemma {:induction false} ShuffleReaches<T>(s: seq<T>, t: seq<T>, k: nat) returns (c: seq<nat>)
    requires |s| == |t| && (k < |s| || k == 0)
    requires multiset(s) == multiset(t)
    requires forall i :: k < i < |s| ==> s[i] == t[i]
    ensures Choices(c, |s|) && Shuffled(s, c, k) == t
    decreases k
  {
    if k == 0 {
      c := seq(|s|, _ => 0);
      SameRest(s, t);
    } else {
      var j := FindBelow(s, t, k);
      SwapMultiset(s, k, j);
      var d := ShuffleReaches(Swap(s, k, j), t, k - 1);
      c := d[k := j];
      SameChoicesBelow(Swap(s, k, j), c, d, k - 1);
    }
  }

  lemma SameRest<T>(s: seq<T>, t: seq<T>)
    requires |s| == |t| && multiset(s) == multiset(t)
    requires forall i :: 0 < i < |s| ==> s[i] == t[i]
    ensures s == t
  {
    if s != [] {
      var rest := s[1..];
      assert rest == t[1..];
      HeadCount(s[0], rest, s[0]);
      HeadCount(t[0], rest, s[0]);
      assert s == [s[0]] + rest && t == [t[0]] + rest;
    }
  }

  lemma HeadCount<T>(head: T, rest: seq<T>, x: T)
    ensures multiset([head] + rest)[x] == multiset(rest)[x] + if head == x then 1 else 0
  {
    assert multiset([head] + rest) == multiset{head} + multiset(rest);
  }

  lemma FindBelow<T>(s: seq<T>, t: seq<T>, k: nat) returns (j: nat)
    requires |s| == |t| && k < |s| && multiset(s) == multiset(t)
    requires forall i :: k < i < |s| ==> s[i] == t[i]
    ensures j <= k && s[j] == t[k]
  {
    assert s == s[..k + 1] + s[k + 1..] && t == t[..k + 1] + t[k + 1..];
    assert s[k + 1..] == t[k + 1..];
    assert multiset(s[..k + 1]) == multiset(s) - multiset(s[k + 1..]);
    assert multiset(t[..k + 1]) == multiset(t) - multiset(t[k + 1..]);
    assert t[..k + 1][k] in multiset(t[..k + 1]);
    assert t[k] in s[..k + 1];
    j :| 0 <= j <= k && s[..k + 1][j] == t[k];
  }

  lemma {:induction false} SameChoicesBelow<T>(s: seq<T>, c: seq<nat>, d: seq<nat>, k: nat)
    requires Choices(c, |s|) && Choices(d, |s|) && (k < |s| || k == 0)
    requires forall i :: 0 <= i <= k && i < |s| ==> c[i] == d[i]
    ensures Shuffled(s, c, k) == Shuffled(s, d, k)
    decreases k
  {
    if k > 0 {
      SameChoicesBelow(Swap(s, k, c[k]), c, d, k - 1);
    }
  }

  /** The shuffle of positions k down to 1 with choices drawn from the bytes, and the position behind the last byte taken. */
  function ShuffledFrom<T>(bytes: seq<nat>, from: nat, s: seq<T>, k: nat): Option<(seq<T>, nat)>
    requires k < |s| || k == 0
    decreases k
  {
    if k == 0 then Some((s, from))
    else
      var d := Draw(bytes, from, k + 1);
      if d.None? then None else ShuffledFrom(bytes, d.value.1, Swap(s, k, d.value.0), k - 1)
  }

  /** What is drawn for each position are choices, and they make the shuffle. */
  lemma {:induction false} DrawnChoices<T>(bytes: seq<nat>, from: nat, s: seq<T>, k: nat) returns (choices: seq<nat>)
    requires (k < |s| || k == 0) && ShuffledFrom(bytes, from, s, k).Some?
    ensures Choices(choices, |s|) && Shuffled(s, choices, k) == ShuffledFrom(bytes, from, s, k).value.0
    decreases k
  {
    if k == 0 {
      choices := seq(|s|, _ => 0);
    } else {
      var d := Draw(bytes, from, k + 1).value;
      var rest := DrawnChoices(bytes, d.1, Swap(s, k, d.0), k - 1);
      choices := rest[k := d.0];
      SameChoicesBelow(Swap(s, k, d.0), choices, rest, k - 1);
    }
  }

  /** Conversely choices for at most 256 positions are drawn from themselves, last position first. */
  lemma {:induction false} ChoicesDraw<T>(bytes: seq<nat>, from: nat, s: seq<T>, choices: seq<nat>, k: nat)
    requires Choices(choices, |s|) && (k < |s| || k == 0) && k < 256
    requires from + k <= |bytes| && forall p :: from <= p < from + k ==> bytes[p] == choices[k - (p - from)]
    ensures ShuffledFrom(bytes, from, s, k) == Some((Shuffled(s, choices, k), from + k))
    decreases k
  {
    if k > 0 {
      assert bytes[from] == choices[k] <= k;
      SmallByteDraws(bytes, from, k + 1);
      ChoicesDraw(bytes, from + 1, Swap(s, k, choices[k]), choices, k - 1);
    }
  }

  /** A byte below the maximum is accepted as it is. */
  lemma SmallByteDraws(bytes: seq<nat>, from: nat, max: nat)
    requires 1 <= max <= 256 && from < |bytes| && bytes[from] < max
    ensures Draw(bytes, from, max) == Some((bytes[from], from + 1))
  {
    BlocksBelowLimit(max, 0);
    BlockRemainder(max, 0, bytes[from]);
  }

  method Exchange(a: array<char>, i: nat, j: nat)
    requires i < a.Length && j < a.Length
    modifies a
    ensures a[..] == Swap(old(a[..]), i, j)
  {
    a[i], a[j] := a[j], a[i];
  }

  /** The result is determined by the bytes of the source: it is the shuffle by the choices drawn from them. */
  method ShuffleInPlace(a: array<char>, random: RandomSource) returns (err: Option<RandomError>, ghost choices: seq<nat>)
    requires random.Valid()
    modifies a, random`next
    ensures random.Valid()
    ensures err.Some? ==> err == Some(ReadFailed)
    ensures a.Length > 0 ==>
              ShuffledFrom(random.bytes, old(random.next), old(a[..]), a.Length - 1)
              == if err.None? then Some((a[..], random.next)) else None
    ensures err.None? ==> Choices(choices, a.Length)
    ensures err.None? && a.Length > 0 ==> a[..] == Shuffled(old(a[..]), choices, a.Length - 1)
    ensures a.Length == 0 ==> err.None? && a[..] == old(a[..]) && random.next == old(random.next)
  {
    choices := [];
    ghost var start, first := a[..], random.next;
    var index := a.Length - 1;
    while index > 0
      invariant random.Valid() && (if a.Length == 0 then index == -1 && random.next == first else 0 <= index < a.Length)
      invariant index >= 0 ==>
                  ShuffledFrom(random.bytes, first, start, a.Length - 1) == ShuffledFrom(random.bytes, random.next, a[..], index)
      decreases index
    {
      var swapIndex := random.RandomInt(index + 1);
      if swapIndex.Err? {
        return Some(swapIndex.error), choices;
      }
      Exchange(a, index, swapIndex.value);
      index := index - 1;
    }
    if a.Length > 0 {
      choices := DrawnChoices(random.bytes, first, start, a.Length - 1);
    }
    return None, choices;
  }

  // ----- The password

  const LOWERCASE := "abcdefghijklmnopqrstuvwxyz"
  const UPPERCASE := "ABCDEFGHIJKLMNOPQRSTUVWXYZ"
  const DIGITS := "0123456789"
  const SPECIAL := "!@#$%^&*()-_=+[]{}"
  const ALL := LOWERCASE + UPPERCASE + DIGITS + SPECIAL
  const REQUIRED_SETS := [LOWERCASE, UPPERCASE, DIGITS, SPECIAL]
  const PASSWORD_LENGTH := 24

  ghost predicate HasOneOf(password: string, charset: string) {
    exists i :: 0 <= i < |password| && password[i] in charset
  }

  /** Twenty-four allowed characters with one of each class among them. */
  ghost predicate Strong(password: string, sets: seq<string>, all: string) {
    && |password| == PASSWORD_LENGTH
    && (forall c :: c in password ==> c in all)
    && (forall k :: 0 <= k < |sets| ==> HasOneOf(password, sets[k]))
  }

  /** Before the shuffle: one character of each class in front, any allowed ones behind. */
  ghost predicate Drawn(draft: string, sets: seq<string>, all: string) {
    && |sets| <= |draft| == PASSWORD_LENGTH
    && (forall k :: 0 <= k < |sets| ==> draft[k] in sets[k])
    && (forall k :: |sets| <= k < PASSWORD_LENGTH ==> draft[k] in all)
  }

  ghost predicate Covers(all: string, sets: seq<string>) {
    all != "" && forall k, c :: 0 <= k < |sets| && c in sets[k] ==> c in all
  }

  lemma RearrangedHas(draft: string, password: string, i: nat, charset: string)
    requires multiset(draft) == multiset(password) && i < |draft| && draft[i] in charset
    ensures HasOneOf(password, charset)
  {
    assert draft[i] in multiset(draft);
    assert draft[i] in password;
  }

  lemma RearrangedStrong(draft: string, password: string, sets: seq<string>, all: string)
    requires Drawn(draft, sets, all) && Covers(all, sets) && multiset(draft) == multiset(password)
    ensures Strong(password, sets, all)
  {
    assert |password| == |multiset(password)| == |multiset(draft)| == |draft|;
    forall k | 0 <= k < |sets| ensures HasOneOf(password, sets[k]) {
      RearrangedHas(draft, password, k, sets[k]);
    }
    forall c | c in password ensures c in all {
      assert c in multiset(password);
      assert c in draft;
      var i :| 0 <= i < |draft| && draft[i] == c;
      if i < |sets| { assert draft[i] in sets[i]; }
    }
  }

  /** One character of each charset in turn, drawn from the bytes, and the position behind the last byte taken. */
  function DrawnFrom(bytes: seq<nat>, from: nat, charsets: seq<string>): (d: Option<(string, nat)>)
    requires forall k :: 0 <= k < |charsets| ==> charsets[k] != ""
    ensures d.Some? ==> |d.value.0| == |charsets|
  {
    if charsets == [] then Some(("", from))
    else
      var n := |charsets| - 1;
      var front := DrawnFrom(bytes, from, charsets[..n]);
      if front.None? then None
      else
        var d := Draw(bytes, front.value.1, |charsets[n]|);
        if d.None? then None else Some((front.value.0 + [charsets[n][d.value.0]], d.value.1))
  }

  /** The required sets in front, the whole alphabet for every position behind them. */
  function Charsets(sets: seq<string>, all: string): (charsets: seq<string>)
    requires |sets| <= PASSWORD_LENGTH
    ensures |charsets| == PASSWORD_LENGTH
    ensures forall k :: 0 <= k < PASSWORD_LENGTH ==> charsets[k] == if k < |sets| then sets[k] else all
  {
    sets + seq(PASSWORD_LENGTH - |sets|, _ => all)
  }

  predicate Usable(sets: seq<string>, all: string) {
    && |sets| <= PASSWORD_LENGTH && 1 <= |all| <= 256
    && forall k :: 0 <= k < |sets| ==> 1 <= |sets[k]| <= 256
  }

  /** The password that the bytes from a position on lead to. */
  function PasswordFrom(bytes: seq<nat>, from: nat, sets: seq<string>, all: string): Option<string>
    requires Usable(sets, all)
  {
    var draft := DrawnFrom(bytes, from, Charsets(sets, all));
    if draft.None? then None
    else
      var shuffled := ShuffledFrom(bytes, draft.value.1, draft.value.0, PASSWORD_LENGTH - 1);
      if shuffled.None? then None else Some(shuffled.value.0)
  }

  lemma {:induction false} FrontFails(bytes: seq<nat>, from: nat, charsets: seq<string>, n: nat)
    requires forall k :: 0 <= k < |charsets| ==> charsets[k] != ""
    requires n <= |charsets| && DrawnFrom(bytes, from, charsets[..n]).None?
    ensures DrawnFrom(bytes, from, charsets).None?
    decreases |charsets|
  {
    if n == |charsets| {
      assert charsets[..n] == charsets;
    } else {
      var m := |charsets| - 1;
      assert charsets[..m][..n] == charsets[..n];
      FrontFails(bytes, from, charsets[..m], n);
    }
  }

  lemma {:induction false} DrawnAllowed(bytes: seq<nat>, from: nat, charsets: seq<string>)
    requires forall k :: 0 <= k < |charsets| ==> charsets[k] != ""
    requires DrawnFrom(bytes, from, charsets).Some?
    ensures forall k :: 0 <= k < |charsets| ==> DrawnFrom(bytes, from, charsets).value.0[k] in charsets[k]
  {
    if charsets != [] {
      DrawnAllowed(bytes, from, charsets[..|charsets| - 1]);
    }
  }

  method DrawFrom(charset: string, random: RandomSource) returns (r: Result<char, RandomError>)
    requires random.Valid() && charset != ""
    modifies random`next
    ensures random.Valid()
    ensures r.Err? ==> r.error == ReadFailed
    ensures var d := Draw(random.bytes, old(random.next), |charset|);
            if d.None? then r.Err? else r == Ok(charset[d.value.0]) && random.next == d.value.1
  {
    var index := random.RandomInt(|charset|);
    if index.Err? {
      return Err(index.error);
    }
    return Ok(charset[index.value]);
  }

  /** Appends one character for every required set, then one of all for each position that is left. */
  method DrawDraft(sets: seq<string>, all: string, random: RandomSource) returns (r: Result<seq<char>, RandomError>)
    requires random.Valid() && Usable(sets, all)
    modifies random`next
    ensures random.Valid()
    ensures r.Err? ==> r.error == ReadFailed
    ensures DrawnFrom(random.bytes, old(random.next), Charsets(sets, all))
         == if r.Ok? then Some((r.value, random.next)) else None
  {
    ghost var first, charsets := random.next, Charsets(sets, all);
    var password: seq<char> := [];
    for k := 0 to |sets|
      invariant random.Valid()
      invariant DrawnFrom(random.bytes, first, charsets[..k]) == Some((password, random.next))
    {
      DrawnStep(random.bytes, first, charsets, k, password, random.next);
      var drawn := DrawFrom(sets[k], random);
      if drawn.Err? {
        FrontFails(random.bytes, first, charsets, k + 1);
        return Err(drawn.error);
      }
      password := password + [drawn.value];
    }
    while |password| < PASSWORD_LENGTH
      invariant random.Valid() && |sets| <= |password| <= PASSWORD_LENGTH
      invariant DrawnFrom(random.bytes, first, charsets[..|password|]) == Some((password, random.next))
      decreases PASSWORD_LENGTH - |password|
    {
      DrawnStep(random.bytes, first, charsets, |password|, password, random.next);
      var drawn := DrawFrom(all, random);
      if drawn.Err? {
        FrontFails(random.bytes, first, charsets, |password| + 1);
        return Err(drawn.error);
      }
      password := password + [drawn.value];
    }
    assert charsets[..PASSWORD_LENGTH] == charsets;
    return Ok(password);
  }

  lemma DrawnStep(bytes: seq<nat>, from: nat, charsets: seq<string>, k: nat, front: string, next: nat)
    requires forall i :: 0 <= i < |charsets| ==> charsets[i] != ""
    requires k < |charsets| && DrawnFrom(bytes, from, charsets[..k]) == Some((front, next))
    ensures
      var d := Draw(bytes, next, |charsets[k]|);
      DrawnFrom(bytes, from, charsets[..k + 1])
      == if d.None? then None else Some((front + [charsets[k][d.value.0]], d.value.1))
  {
    var upTo := charsets[..k + 1];
    assert upTo[..k] == charsets[..k] && upTo[k] == charsets[k];
  }

  method GenerateFrom(sets: seq<string>, all: string, random: RandomSource) returns (r: Result<string, RandomError>)
    requires random.Valid() && Usable(sets, all) && Covers(all, sets)
    modifies random`next
    ensures random.Valid()
    ensures r.Ok? ==> Strong(r.value, sets, all)
    ensures r.Err? ==> r.error == ReadFailed
    ensures PasswordFrom(random.bytes, old(random.next), sets, all) == if r.Ok? then Some(r.value) else None
  {
    var draft := DrawDraft(sets, all, random);
    if draft.Err? {
      return Err(draft.error);
    }
    var password := new char[PASSWORD_LENGTH](i requires 0 <= i < |draft.value| => draft.value[i]);
    assert password[..] == draft.value;
    var err, choices := ShuffleInPlace(password, random);
    if err.Some? {
      return Err(err.value);
    }
    DrawnAllowed(random.bytes, old(random.next), Charsets(sets, all));
    assert Drawn(draft.value, sets, all);
    ShuffledMultiset(draft.value, choices, PASSWORD_LENGTH - 1);
    RearrangedStrong(draft.value, password[..], sets, all);
    return Ok(password[..]);
  }

  lemma AllCovers()
    ensures Covers(ALL, REQUIRED_SETS)
  {
    forall k, c | 0 <= k < 4 && c in REQUIRED_SETS[k] ensures c in ALL {
      assert ALL == LOWERCASE + UPPERCASE + DIGITS + SPECIAL;
    }
  }

  lemma SourceSetsUsable()
    ensures Usable(REQUIRED_SETS, ALL)
  {
  }

  /** Whatever the random source, a password that comes out is strong; only a failing source prevents one. */
  method GeneratePassword(random: RandomSource) returns (r: Result<string, RandomError>)
    requires random.Valid()
    modifies random`next
    ensures random.Valid()
    ensures r.Ok? ==> Strong(r.value, REQUIRED_SETS, ALL)
    ensures r.Err? ==> r.error == ReadFailed
    ensures r.Ok? ==> |r.value| == 24
    ensures Usable(REQUIRED_SETS, ALL)
    ensures PasswordFrom(random.bytes, old(random.next), REQUIRED_SETS, ALL) == if r.Ok? then Some(r.value) else None
  {
    AllCovers();
    SourceSetsUsable();
    r := GenerateFrom(REQUIRED_SETS, ALL, random);
  }

  ghost predicate Disjoint(sets: seq<string>) {
    forall j, k, c :: 0 <= j < |sets| && 0 <= k < |sets| && c in sets[j] && c in sets[k] ==> j == k
  }

  /** And no strong password is out of reach: some draws followed by some choices produce it. */
  lemma EveryStrongPasswordReachable(password: string, sets: seq<string>, all: string)
    returns (draft: string, choices: seq<nat>)
    requires |sets| <= PASSWORD_LENGTH && Disjoint(sets) && Strong(password, sets, all)
    ensures Drawn(draft, sets, all) && Choices(choices, PASSWORD_LENGTH)
    ensures Shuffled(draft, choices, PASSWORD_LENGTH - 1) == password
  {
    draft := BringForward(password, sets, all, |sets|);
    forall k | 0 <= k < |draft| ensures draft[k] in all {
      assert draft[k] in multiset(draft);
      assert draft[k] in password;
    }
    choices := ShuffleReaches(draft, password, PASSWORD_LENGTH - 1);
  }

  /** Bytes that draw a given character of each charset. */
  lemma {:induction false} BytesForDraft(draft: string, charsets: seq<string>) returns (bytes: seq<nat>)
    requires |draft| == |charsets|
    requires forall k :: 0 <= k < |charsets| ==> |charsets[k]| <= 256 && draft[k] in charsets[k]
    ensures |bytes| == |draft| && forall b :: b in bytes ==> b < 256
    ensures forall more: seq<nat> :: DrawnFrom(bytes + more, 0, charsets) == Some((draft, |bytes|))
  {
    if draft == "" {
      bytes := [];
    } else {
      var n := |draft| - 1;
      var front := BytesForDraft(draft[..n], charsets[..n]);
      var i :| 0 <= i < |charsets[n]| && charsets[n][i] == draft[n];
      bytes := front + [i];
      forall more: seq<nat>
        ensures DrawnFrom(bytes + more, 0, charsets) == Some((draft, |bytes|))
      {
        LastDrawn(front, i, more, draft, charsets);
      }
    }
  }

  lemma LastDrawn(front: seq<nat>, i: nat, more: seq<nat>, draft: string, charsets: seq<string>)
    requires |draft| == |charsets| > 0
    requires forall k :: 0 <= k < |charsets| ==> charsets[k] != ""
    requires |charsets[|draft| - 1]| <= 256 && i < |charsets[|draft| - 1]| && charsets[|draft| - 1][i] == draft[|draft| - 1]
    requires DrawnFrom(front + ([i] + more), 0, charsets[..|draft| - 1]) == Some((draft[..|draft| - 1], |front|))
    ensures DrawnFrom(front + [i] + more, 0, charsets) == Some((draft, |front| + 1))
  {
    var bytes := front + ([i] + more);
    assert front + [i] + more == bytes && bytes[|front|] == i;
    SmallByteDraws(bytes, |front|, |charsets[|draft| - 1]|);
    assert draft[..|draft| - 1] + [draft[|draft| - 1]] == draft;
  }

  /** Every strong password comes out of some random source. */
  lemma BytesForPassword(password: string, sets: seq<string>, all: string) returns (bytes: seq<nat>)
    requires Usable(sets, all) && Disjoint(sets) && Strong(password, sets, all)
    ensures forall b :: b in bytes ==> b < 256
    ensures PasswordFrom(bytes, 0, sets, all) == Some(password)
  {
    var draft, choices := EveryStrongPasswordReachable(password, sets, all);
    var front := BytesForDraft(draft, Charsets(sets, all));
    var k := PASSWORD_LENGTH - 1;
    var back := Backwards(choices, k);
    bytes := front + back;
    assert DrawnFrom(front + back, 0, Charsets(sets, all)) == Some((draft, |front|));
    ChoicesDraw(bytes, |front|, draft, choices, k);
  }

  /** So GeneratePassword can return every strong password: for each there is a source that it turns into that password. */
  lemma EveryStrongPasswordComesOut(password: string) returns (bytes: seq<nat>)
    requires Strong(password, REQUIRED_SETS, ALL)
    ensures forall b :: b in bytes ==> b < 256
    ensures Usable(REQUIRED_SETS, ALL) && PasswordFrom(bytes, 0, REQUIRED_SETS, ALL) == Some(password)
  {
    RequiredSetsDisjoint();
    SourceSetsUsable();
    bytes := BytesForPassword(password, REQUIRED_SETS, ALL);
  }

  function Backwards(choices: seq<nat>, k: nat): (bytes: seq<nat>)
    requires Choices(choices, PASSWORD_LENGTH) && k < PASSWORD_LENGTH
    ensures |bytes| == k && forall i :: 0 <= i < k ==> bytes[i] == choices[k - i]
    ensures forall b :: b in bytes ==> b < 256
  {
    seq(k, i requires 0 <= i < k => choices[k - i])
  }

  lemma {:induction false} BringForward(password: string, sets: seq<string>, all: string, n: nat) returns (t: string)
    requires n <= |sets| <= PASSWORD_LENGTH && Disjoint(sets) && Strong(password, sets, all)
    ensures |t| == PASSWORD_LENGTH && multiset(t) == multiset(password)
    ensures forall i :: 0 <= i < n ==> t[i] in sets[i]
  {
    if n == 0 {
      t := password;
    } else {
      var k := n - 1;
      var s := BringForward(password, sets, all, k);
      assert HasOneOf(password, sets[k]);
      var i :| 0 <= i < |password| && password[i] in sets[k];
      assert password[i] in multiset(s);
      var j :| 0 <= j < |s| && s[j] == password[i];
      assert j >= k by {
        assert forall m :: 0 <= m < k ==> s[m] in sets[m] && s[m] !in sets[k];
      }
      SwapMultiset(s, k, j);
      t := Swap(s, k, j);
    }
  }

  /** The four classes of the source share no character. */
  lemma RequiredSetsDisjoint()
    ensures Disjoint(REQUIRED_SETS)
  {
    LettersAndDigits();
    SpecialCharacters();
    assert forall k :: 0 <= k < 4 ==> REQUIRED_SETS[k] == [LOWERCASE, UPPERCASE, DIGITS, SPECIAL][k];
  }

  /** The alphabets are the letters, the digits and eighteen special characters, and nothing else is allowed. */
  lemma AllowedCharacters(c: char)
    ensures c in LOWERCASE <==> 'a' <= c <= 'z'
    ensures c in UPPERCASE <==> 'A' <= c <= 'Z'
    ensures c in DIGITS <==> '0' <= c <= '9'
    ensures |SPECIAL| == 18
    ensures c in ALL <==> c in LOWERCASE || c in UPPERCASE || c in DIGITS || c in SPECIAL
  {
    LettersAndDigits();
    if 'a' <= c <= 'z' {
      LowerLetterAt(c as int - 'a' as int);
    }
    if 'A' <= c <= 'Z' {
      UpperLetterAt(c as int - 'A' as int);
    }
    if '0' <= c <= '9' {
      DigitAt(c as int - '0' as int);
    }
  }

  lemma LowerLetterAt(k: nat)
    requires k < 26
    ensures LOWERCASE[k] as int == 'a' as int + k
  {
  }

  lemma UpperLetterAt(k: nat)
    requires k < 26
    ensures UPPERCASE[k] as int == 'A' as int + k
  {
  }

  lemma DigitAt(k: nat)
    requires k < 10
    ensures DIGITS[k] as int == '0' as int + k
  {
  }

  lemma LettersAndDigits()
    ensures forall c :: c in LOWERCASE ==> 'a' <= c <= 'z'
    ensures forall c :: c in UPPERCASE ==> 'A' <= c <= 'Z'
    ensures forall c :: c in DIGITS ==> '0' <= c <= '9'
  {
    LowerLetters();
    UpperLetters();
    DecimalDigits();
  }

  lemma LowerLetters()
    ensures forall c :: c in LOWERCASE ==> 'a' <= c <= 'z'
  {
  }

  lemma UpperLetters()
    ensures forall c :: c in UPPERCASE ==> 'A' <= c <= 'Z'
  {
  }

  lemma DecimalDigits()
    ensures forall c :: c in DIGITS ==> '0' <= c <= '9'
  {
  }

  lemma SpecialCharacters()
    ensures forall c :: c in SPECIAL ==> !('a' <= c <= 'z') && !('A' <= c <= 'Z') && !('0' <= c <= '9')
  {
  }
}
