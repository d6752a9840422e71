/** The spawn check and the names of the scenarios (internal/client/scenario.go, internal/client/client.go:425-438). */
module Scenario {
  import opened Bytes
  import opened Sequences
  import opened PacketIO

  // ---- The spawn check, in 32-bit arithmetic ----

  const RADIUS_SQUARED: int := 3000 * 3000
  const WORD: int := 0x1_0000_0000

  /** An int32 expression keeps the low 32 bits of its exact value. */
  function Wrapped(n: int): int32 {
    ToI32(n % WORD)
  }

  datatype Point = Point(x: int32, y: int32)

  function TownCenter(class_: int32): Option<Point> {
    if class_ == 0 then Some(Point(-71338, 258271))
    else if class_ == 10 then Some(Point(-90875, 248162))
    else if class_ == 18 || class_ == 25 then Some(Point(46045, 41251))
    else if class_ == 31 || class_ == 38 then Some(Point(28295, 11063))
    else if class_ == 44 || class_ == 49 then Some(Point(-56733, -113459))
    else if class_ == 53 then Some(Point(108644, -173947))
    else None
  }

  datatype Verdict = Pass | NotNear | NoTown

  predicate TooFar(p: Point, town: Point) {
    var dx, dy := Wrapped(p.x - town.x), Wrapped(p.y - town.y);
    Wrapped(Wrapped(dx * dx) + Wrapped(dy * dy)) > RADIUS_SQUARED
  }

  function CheckSpawn(class_: int32, p: Point): Verdict {
    match TownCenter(class_)
    case None => NoTown
    case Some(town) => if TooFar(p, town) then NotNear else Pass
  }

  /** The square of the distance. */
  function Distance2(p: Point, q: Point): nat {
    Square(p.x - q.x) + Square(p.y - q.y)
  }

  function Square(n: int): (s: nat) {
    SquareNotNegative(n);
    n * n
  }

  lemma SquareNotNegative(n: int)
    ensures n * n >= 0
  {
  }

  lemma ModShift(a: int, k: int)
    ensures (a + k * WORD) % WORD == a % WORD
  {
    var q := a / WORD;
    assert a == q * WORD + a % WORD;
    assert a + k * WORD == (q + k) * WORD + a % WORD;
    ModUnique(q + k, a % WORD);
  }

  lemma ModUnique(q: int, r: int)
    requires 0 <= r < WORD
    ensures (q * WORD + r) % WORD == r
  {
  }

  lemma WrappedSum(a: int, b: int)
    ensures Wrapped(Wrapped(a) + Wrapped(b)) == Wrapped(a + b)
  {
    var j := WrappedIs(a);
    var k := WrappedIs(b);
    ModShift(a + b, j + k);
    hide ToI32;
  }

  lemma WrappedIs(n: int) returns (k: int)
    ensures Wrapped(n) == n + k * WORD
  {
    k := if n % WORD >= 0x8000_0000 then -(n / WORD) - 1 else -(n / WORD);
  }

  lemma WrappedSquare(d: int)
    ensures Wrapped(Wrapped(d) * Wrapped(d)) == Wrapped(Square(d))
  {
    var k := WrappedIs(d);
    var w := Wrapped(d);
    Expand(d, k * WORD);
    Factor(d, k);
    ModShift(d * d, 2 * d * k + k * (k * WORD));
  }

  lemma Expand(d: int, e: int)
    ensures (d + e) * (d + e) == d * d + (2 * d * e + e * e)
  {
  }

  lemma Factor(d: int, k: int)
    ensures 2 * d * (k * WORD) + (k * WORD) * (k * WORD) == (2 * d * k + k * (k * WORD)) * WORD
  {
  }

  lemma TooFarIsWrapped(p: Point, town: Point)
    ensures TooFar(p, town) <==> Wrapped(Distance2(p, town)) > RADIUS_SQUARED
  {
    WrappedSquare(p.x - town.x);
    WrappedSquare(p.y - town.y);
    WrappedSum(Square(p.x - town.x), Square(p.y - town.y));
    hide Square, Wrapped;
  }

  /** A squared distance that the wrapped comparison gets wrong. */
  predicate Misjudged(d: nat) {
    d > RADIUS_SQUARED && (d % WORD <= RADIUS_SQUARED || d % WORD >= 0x8000_0000)
  }

  lemma WrappedComparison(d: nat)
    ensures Wrapped(d) > RADIUS_SQUARED <==> d > RADIUS_SQUARED && !Misjudged(d)
  {
  }

  /**
   * The check is right about a spawn exactly unless it is out of range and the square of its distance, taken modulo
   * 2^32, looks small or negative. It never rejects a spawn within the radius.
   */
  lemma CheckIsExactUnlessWrapped(p: Point, town: Point)
    ensures (TooFar(p, town) <==> Distance2(p, town) > RADIUS_SQUARED) <==> !Misjudged(Distance2(p, town))
    ensures TooFar(p, town) ==> Distance2(p, town) > RADIUS_SQUARED
  {
    TooFarIsWrapped(p, town);
    WrappedComparison(Distance2(p, town));
    hide TooFar, Wrapped, Distance2;
  }

  predicate Within(p: Point, town: Point, bound: int) {
    -bound <= p.x - town.x <= bound && -bound <= p.y - town.y <= bound
  }

  lemma SquareBound(n: int, bound: int)
    requires -bound <= n <= bound
    ensures Square(n) <= bound * bound
  {
    if n >= 0 { SquareGrows(n, bound); } else { SquareGrows(-n, bound); }
  }

  lemma SquareGrows(n: nat, bound: nat)
    requires n <= bound
    ensures n * n <= bound * bound
  {
  }

  lemma NearbyIsSmall(p: Point, town: Point)
    requires Within(p, town, 32767)
    ensures Distance2(p, town) < 0x8000_0000
  {
    hide Square;
    SquareBound(p.x - town.x, 32767);
    SquareBound(p.y - town.y, 32767);
  }

  lemma SmallIsNotMisjudged(d: nat)
    requires d < 0x8000_0000
    ensures !Misjudged(d)
  {
  }

  lemma CheckIsExactNearby(p: Point, town: Point)
    requires Within(p, town, 32767)
    ensures TooFar(p, town) <==> Distance2(p, town) > RADIUS_SQUARED
  {
    hide TooFar, Distance2, Misjudged;
    NearbyIsSmall(p, town);
    SmallIsNotMisjudged(Distance2(p, town));
    CheckIsExactUnlessWrapped(p, town);
  }

  lemma CheckFailsAtTheCorner(town: Point)
    requires town.x < 0x7000_0000 && town.y < 0x7000_0000
    ensures var p := Point(town.x + 32768, town.y + 32768);
      !TooFar(p, town) && Distance2(p, town) > RADIUS_SQUARED
  {
    var p := Point(town.x + 32768, town.y + 32768);
    assert Distance2(p, town) == 0x8000_0000;
    CheckIsExactUnlessWrapped(p, town);
    hide TooFar, Distance2;
  }

  /** The largest box around a town in which the check is right about every spawn reaches 32767 units each way. */
  lemma CheckIsExactInTheBox(town: Point, bound: int)
    requires bound >= 0 && town.x < 0x7000_0000 && town.y < 0x7000_0000
    ensures (forall p :: Within(p, town, bound) ==> (TooFar(p, town) <==> Distance2(p, town) > RADIUS_SQUARED))
      <==> bound <= 32767
  {
    hide TooFar, Distance2;
    if bound <= 32767 {
      forall p | Within(p, town, bound) ensures TooFar(p, town) <==> Distance2(p, town) > RADIUS_SQUARED {
        CheckIsExactNearby(p, town);
      }
    } else {
      CheckFailsAtTheCorner(town);
      assert Within(Point(town.x + 32768, town.y + 32768), town, bound);
    }
  }

  /** A spawn 65536 units away from the Elven village passes. */
  lemma FarSpawnPasses(p: Point)
    requires p == Point(46045 + 65536, 41251)
    ensures CheckSpawn(18, p) == Pass && Distance2(p, TownCenter(18).value) == 65536 * 65536
  {
    CheckIsExactUnlessWrapped(p, TownCenter(18).value);
    hide TooFar;
  }

  /**
   * The verdict on a spawn, with the town in the middle: within 3000 units it passes, and beyond them too when the
   * square of the distance, modulo 2^32, is within the limit or reaches the sign bit.
   */
  predicate Judged(v: Verdict, p: Point, cx: int, cy: int) {
    var d := (p.x - cx) * (p.x - cx) + (p.y - cy) * (p.y - cy);
    var low := d % 0x1_0000_0000;
    v == if d <= 9_000_000 || low <= 9_000_000 || low >= 0x8000_0000 then Pass else NotNear
  }

  /** The check, for every class and every spawn. */
  lemma SpawnTable(p: Point)
    ensures Judged(CheckSpawn(0, p), p, -71338, 258271) && Judged(CheckSpawn(10, p), p, -90875, 248162)
    ensures Judged(CheckSpawn(18, p), p, 46045, 41251) && Judged(CheckSpawn(25, p), p, 46045, 41251)
    ensures Judged(CheckSpawn(31, p), p, 28295, 11063) && Judged(CheckSpawn(38, p), p, 28295, 11063)
    ensures Judged(CheckSpawn(44, p), p, -56733, -113459) && Judged(CheckSpawn(49, p), p, -56733, -113459)
    ensures Judged(CheckSpawn(53, p), p, 108644, -173947)
    ensures forall class_: int32 ::
      class_ !in {0, 10, 18, 25, 31, 38, 44, 49, 53} ==> CheckSpawn(class_, p) == NoTown
  {
    hide TooFar, Judged;
    TownJudged(p, Point(-71338, 258271));
    TownJudged(p, Point(-90875, 248162));
    TownJudged(p, Point(46045, 41251));
    TownJudged(p, Point(28295, 11063));
    TownJudged(p, Point(-56733, -113459));
    TownJudged(p, Point(108644, -173947));
  }

  lemma TownJudged(p: Point, town: Point)
    ensures Judged(if TooFar(p, town) then NotNear else Pass, p, town.x, town.y)
  {
    hide TooFar;
    CheckIsExactUnlessWrapped(p, town);
  }

  // ---- Character names ----

  const DEFAULT_NAME: string := "BotTestPlayer"
  const MAX_NAME: nat := 16

  predicate IsAlnum(c: char) {
    'a' <= c <= 'z' || 'A' <= c <= 'Z' || '0' <= c <= '9'
  }

  function Kept(account: string): string {
    if account == [] then []
    else
      var n := |account| - 1;
      Kept(account[..n]) + if IsAlnum(account[n]) then [account[n]] else []
  }

  function Cut(s: string): string {
    if |s| <= MAX_NAME then s else s[..MAX_NAME]
  }

  function Sanitized(account: string): string {
    if |Cut(Kept(account))| < 3 then DEFAULT_NAME else Cut(Kept(account))
  }

  /** The loop stops reading once it has sixteen characters. */
  method SanitizeName(account: string) returns (name: string)
    ensures name == Sanitized(account)
  {
    name := [];
    var i := 0;
    while i < |account| && |name| < MAX_NAME
      invariant 0 <= i <= |account| && |name| <= MAX_NAME && name == Kept(account[..i])
    {
      var c := account[i];
      assert account[..i + 1][..i] == account[..i];
      if IsAlnum(c) { name := name + [c]; }
      i := i + 1;
    }
    KeptPrefix(account, i);
    assert account[..|account|] == account;
    if |name| < 3 { name := DEFAULT_NAME; }
  }

  lemma {:induction false} KeptPrefix(account: string, i: nat)
    requires i <= |account|
    ensures Kept(account[..i]) <= Kept(account)
    decreases |account|
  {
    if i < |account| {
      KeptPrefix(account[..|account| - 1], i);
      assert account[..|account| - 1][..i] == account[..i];
    } else {
      assert account[..i] == account;
    }
  }

  /** The load-test path names its character without the limits. */
  function StarterName(account: string): string {
    if |Kept(account)| == 0 || |Kept(account)| > MAX_NAME then DEFAULT_NAME else Kept(account)
  }

  method CreateStarterName(account: string) returns (name: string)
    ensures name == StarterName(account)
  {
    name := [];
    for i := 0 to |account|
      invariant name == Kept(account[..i])
    {
      assert account[..i + 1][..i] == account[..i];
      if IsAlnum(account[i]) { name := name + [account[i]]; }
    }
    assert account[..|account|] == account;
    if |name| == 0 || |name| > 16 { name := DEFAULT_NAME; }
  }

  lemma {:induction false} KeptIsAlnum(account: string)
    ensures forall i :: 0 <= i < |Kept(account)| ==> IsAlnum(Kept(account)[i])
    decreases |account|
  {
    if account != [] { KeptIsAlnum(account[..|account| - 1]); }
  }

  lemma {:induction false} AlnumIsKept(name: string)
    requires forall i :: 0 <= i < |name| ==> IsAlnum(name[i])
    ensures Kept(name) == name
    decreases |name|
  {
    if name != [] {
      AlnumIsKept(name[..|name| - 1]);
      assert name == name[..|name| - 1] + [name[|name| - 1]];
    }
  }

  /** Sanitised names are valid, and sanitising them again changes nothing. */
  lemma SanitizedIsValid(account: string)
    ensures var name := Sanitized(account);
      && 3 <= |name| <= 16 && Sanitized(name) == name
      && forall i :: 0 <= i < |name| ==> 'a' <= name[i] <= 'z' || 'A' <= name[i] <= 'Z' || '0' <= name[i] <= '9'
  {
    KeptIsAlnum(account);
    assert forall i :: 0 <= i < |DEFAULT_NAME| ==> IsAlnum(DEFAULT_NAME[i]);
    AlnumIsKept(Sanitized(account));
  }

  /** Letters and digits are kept, in order, and nothing else is. */
  lemma {:induction false} KeptParts(s: string, t: string)
    ensures Kept(s + t) == Kept(s) + Kept(t)
    decreases |t|
  {
    hide IsAlnum;
    if t == [] {
      assert s + t == s;
    } else {
      var n := |t| - 1;
      KeptParts(s, t[..n]);
      assert (s + t)[..|s| + n] == s + t[..n];
      ConcatAssociates(Kept(s), Kept(t[..n]), if IsAlnum(t[n]) then [t[n]] else []);
    }
  }

  lemma KeptOne(c: char)
    ensures Kept([c]) == if 'a' <= c <= 'z' || 'A' <= c <= 'Z' || '0' <= c <= '9' then [c] else []
  {
    assert [c][..0] == [];
  }

  /** The three cases, by the number of usable characters. */
  lemma SanitizedCases(account: string)
    ensures |Kept(account)| < 3 ==> Sanitized(account) == "BotTestPlayer"
    ensures 3 <= |Kept(account)| <= 16 ==> Sanitized(account) == Kept(account)
    ensures |Kept(account)| > 16 ==> Sanitized(account) == Kept(account)[..16]
  {
  }

  /** The two ways of naming a character agree exactly on accounts with none, or three to sixteen, usable characters. */
  lemma NamesAgree(account: string)
    ensures StarterName(account) == Sanitized(account) <==>
      |Kept(account)| == 0 || 3 <= |Kept(account)| <= MAX_NAME
  {
  }

  /** strconv.Itoa */
  function Decimal(n: nat): (s: string)
    ensures |s| > 0
  {
    var digit := [('0' as int + n % 10) as char];
    if n < 10 then digit else Decimal(n / 10) + digit
  }

  lemma {:induction false} DecimalInjective(m: nat, n: nat)
    requires Decimal(m) == Decimal(n)
    ensures m == n
  {
    var s, t := Decimal(m), Decimal(n);
    assert s[|s| - 1] == t[|t| - 1];
    if m >= 10 && n >= 10 {
      assert s[..|s| - 1] == Decimal(m / 10) && t[..|t| - 1] == Decimal(n / 10);
      DecimalInjective(m / 10, n / 10);
    }
  }

  /** The number a string of digits denotes. */
  function Value(s: string): int {
    if s == [] then 0 else 10 * Value(s[..|s| - 1]) + (s[|s| - 1] as int - 48)
  }

  predicate IsNumeral(s: string, n: nat) {
    && s != [] && Value(s) == n && (s[0] == '0' ==> s == "0")
    && forall i :: 0 <= i < |s| ==> '0' <= s[i] <= '9'
  }

  lemma {:induction false} DecimalIsNumeral(n: nat)
    ensures IsNumeral(Decimal(n), n)
  {
    var s := Decimal(n);
    assert s[..|s| - 1] == if n < 10 then [] else Decimal(n / 10);
    if n >= 10 { DecimalIsNumeral(n / 10); }
  }

  /** A slot's name is the base, cut to fourteen characters, and the slot's number behind it. */
  lemma SlotNameIsBaseAndNumber(base: string, slot: nat)
    ensures var name, m := SlotName(base, slot), if |base| < 14 then |base| else 14;
      m < |name| && name[..m] == base[..m] && IsNumeral(name[m..], slot)
  {
    hide IsNumeral, Decimal;
    DecimalIsNumeral(slot);
    var m := if |base| < 14 then |base| else 14;
    assert SlotName(base, slot) == base[..m] + Decimal(slot);
  }

  function SlotName(base: string, slot: nat): string {
    (if |base| > 14 then base[..14] else base) + Decimal(slot)
  }

  /** Slots of one account never share a name, and the name of any slot below 100 fits. */
  lemma SlotNamesAreUnique(base: string, i: nat, j: nat)
    ensures SlotName(base, i) == SlotName(base, j) ==> i == j
    ensures i < 100 ==> |SlotName(base, i)| <= MAX_NAME
  {
    var prefix := if |base| > 14 then base[..14] else base;
    if i < 10 {
      assert |Decimal(i)| == 1;
    } else if i < 100 {
      assert |Decimal(i)| == |Decimal(i / 10)| + 1 && |Decimal(i / 10)| == 1;
    }
    if SlotName(base, i) == SlotName(base, j) {
      assert Decimal(i) == SlotName(base, i)[|prefix|..] == Decimal(j);
      DecimalInjective(i, j);
    }
  }
}
