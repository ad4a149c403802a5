/** The text form of key-derivation settings. */
module KdfSpec {
  import opened Order
  import opened Sequences

  const U64_MAX: nat := 0xffff_ffff_ffff_ffff
  const U32_MAX: nat := 0xffff_ffff

  type U64 = n: nat | n <= U64_MAX
  type U32 = n: nat | n <= U32_MAX

  datatype Kind = Argon2d | Argon2id

  datatype Settings =
    | AesKdf(rounds: U64)
    | Argon2(kind: Kind, memory: U64, iterations: U64, parallelism: U32, version: U32)

  datatype SpecError =
    | NoEquals(part: string)
    | NotANumber(key: string)
    | Repeats(key: string)
    | Lacks(key: string)
    | OutOfRange(key: string)
    | UnknownFamily(family: string)
    | UnknownFields

  datatype Result<+T> = Ok(value: T) | Err(error: SpecError)

  // ----- decimal numbers

  predicate IsDigit(c: char) {
    '0' <= c <= '9'
  }

  predicate AllDigits(s: string) {
    forall i :: 0 <= i < |s| ==> IsDigit(s[i])
  }

  function Digit(d: nat): (c: char)
    requires d < 10
    ensures IsDigit(c) && c as int - '0' as int == d
  {
    (d + '0' as int) as char
  }

  function Print(n: nat): string {
    if n < 10 then [Digit(n)] else Print(n / 10) + [Digit(n % 10)]
  }

  function Value(digits: string): nat
    requires AllDigits(digits)
  {
    if digits == [] then 0
    else 10 * Value(digits[..|digits| - 1]) + (digits[|digits| - 1] as int - '0' as int)
  }

  lemma {:induction false} ValueOfPrint(n: nat)
    ensures |Print(n)| > 0 && AllDigits(Print(n)) && Value(Print(n)) == n
  {
    if n >= 10 {
      ValueOfPrint(n / 10);
      assert Print(n)[..|Print(n)| - 1] == Print(n / 10);
    }
  }

  /** As the standard library parses a `u64`: an optional plus sign, then at least
      one digit, leading zeros allowed, within range. */
  function ParseU64(s: string): Option<U64> {
    var digits := if s != [] && s[0] == '+' then s[1..] else s;
    if digits == [] || !AllDigits(digits) || Value(digits) > U64_MAX then None else Some(Value(digits))
  }

  lemma ParsePrinted(n: U64)
    ensures ParseU64(Print(n)) == Some(n)
  {
    ValueOfPrint(n);
    assert IsDigit(Print(n)[0]);
  }

  // ----- splitting

  predicate Free(s: string, c: char) {
    forall i :: 0 <= i < |s| ==> s[i] != c
  }

  function Split(s: string, c: char): (parts: seq<string>)
    ensures |parts| > 0
  {
    if s == [] then [[]]
    else
      var rest := Split(s[1..], c);
      if s[0] == c then [[]] + rest else [[s[0]] + rest[0]] + rest[1..]
  }

  function Join(parts: seq<string>, c: char): string
    requires |parts| > 0
  {
    if |parts| == 1 then parts[0] else parts[0] + [c] + Join(parts[1..], c)
  }

  /** Splitting finds the parts that were joined. */
  lemma {:induction false} SplitJoined(parts: seq<string>, c: char)
    requires |parts| > 0 && forall i :: 0 <= i < |parts| ==> Free(parts[i], c)
    ensures Split(Join(parts, c), c) == parts
    decreases |parts|
  {
    assert Free(parts[0], c);
    if |parts| == 1 {
      SplitFree(parts[0], c);
    } else {
      forall i | 0 <= i < |parts[1..]| ensures Free(parts[1..][i], c) {
        assert parts[1..][i] == parts[i + 1];
      }
      SplitJoined(parts[1..], c);
      SplitFirst(parts[0], Join(parts[1..], c), c);
      assert parts == [parts[0]] + parts[1..];
    }
  }

  lemma {:induction false} SplitFree(s: string, c: char)
    requires Free(s, c)
    ensures Split(s, c) == [s]
  {
    if s != [] {
      SplitFree(s[1..], c);
      assert s == [s[0]] + s[1..];
    }
  }

  lemma {:induction false} SplitFirst(s: string, rest: string, c: char)
    requires Free(s, c)
    ensures Split(s + [c] + rest, c) == [s] + Split(rest, c)
  {
    var all := s + [c] + rest;
    if s == [] {
      assert all[1..] == rest;
    } else {
      assert all[1..] == s[1..] + [c] + rest;
      SplitFirst(s[1..], rest, c);
      assert s == [s[0]] + s[1..];
    }
  }

  /** The key before the first equals sign and the text after it. */
  function SplitOnce(s: string): Option<(string, string)> {
    if s == [] then None
    else if s[0] == '=' then Some(([], s[1..]))
    else
      match SplitOnce(s[1..])
      case None => None
      case Some((key, text)) => Some(([s[0]] + key, text))
  }

  lemma {:induction false} SplitOnceMeans(s: string)
    ensures SplitOnce(s).None? <==> Free(s, '=')
    ensures SplitOnce(s).Some? ==> Free(SplitOnce(s).value.0, '=') && s == SplitOnce(s).value.0 + "=" + SplitOnce(s).value.1
  {
    if s != [] && s[0] != '=' {
      SplitOnceMeans(s[1..]);
      assert s == [s[0]] + s[1..];
    }
  }

  lemma {:induction false} SplitOnceFinds(key: string, text: string)
    requires Free(key, '=')
    ensures SplitOnce(key + "=" + text) == Some((key, text))
  {
    var s := key + "=" + text;
    if key == [] {
      assert s[1..] == text;
    } else {
      assert s[1..] == key[1..] + "=" + text;
      SplitOnceFinds(key[1..], text);
      assert key == [key[0]] + key[1..];
    }
  }

  // ----- fields

  datatype Field = Field(key: string, value: U64)

  /** `key=text` where `text` is a number. */
  function FieldOf(part: string): Option<Field> {
    match SplitOnce(part)
    case None => None
    case Some((key, text)) =>
      match ParseU64(text)
      case None => None
      case Some(n) => Some(Field(key, n))
  }

  function WhyNot(part: string): SpecError {
    match SplitOnce(part)
    case None => NoEquals(part)
    case Some((key, _)) => NotANumber(key)
  }

  /** The field table the parts fill, left to right. */
  function FieldsOf(parts: seq<string>): Result<map<string, U64>> {
    if parts == [] then Ok(map[])
    else
      var last := parts[|parts| - 1];
      match FieldsOf(parts[..|parts| - 1])
      case Err(e) => Err(e)
      case Ok(fields) =>
        match FieldOf(last)
        case None => Err(WhyNot(last))
        case Some(f) => if f.key in fields then Err(Repeats(f.key)) else Ok(fields[f.key := f.value])
  }

  /** Every part is a field, and no key repeats. */
  ghost predicate ProperParts(parts: seq<string>) {
    && (forall i :: 0 <= i < |parts| ==> FieldOf(parts[i]).Some?)
    && (forall i, j :: 0 <= i < j < |parts| ==> FieldOf(parts[i]).value.key != FieldOf(parts[j]).value.key)
  }

  ghost predicate Fills(fields: map<string, U64>, parts: seq<string>)
    requires ProperParts(parts)
  {
    && (forall i :: 0 <= i < |parts| ==>
          var f := FieldOf(parts[i]).value;
          f.key in fields && fields[f.key] == f.value)
    && (forall key :: key in fields ==> exists i :: 0 <= i < |parts| && FieldOf(parts[i]).value.key == key)
  }

  /** A table results exactly from proper parts, and holds exactly their fields. */
  lemma {:induction false} FieldsExactly(parts: seq<string>)
    ensures FieldsOf(parts).Ok? <==> ProperParts(parts)
    ensures FieldsOf(parts).Ok? ==> Fills(FieldsOf(parts).value, parts)
  {
    if parts != [] {
      var front, last := parts[..|parts| - 1], parts[|parts| - 1];
      FieldsExactly(front);
      assert front + [last] == parts;
      if FieldsOf(front).Ok? {
        var fields := FieldsOf(front).value;
        if FieldOf(last).Some? && FieldOf(last).value.key !in fields {
          Growing(fields, front, last);
        } else {
          NotGrowing(fields, front, last);
        }
      } else if ProperParts(parts) {
        ProperPrefix(front, last);
      }
    }
  }

  lemma ProperPrefix(front: seq<string>, last: string)
    requires ProperParts(front + [last])
    ensures ProperParts(front)
  {
    var parts := front + [last];
    forall i | 0 <= i < |front| ensures parts[i] == front[i] {
    }
  }

  lemma Growing(fields: map<string, U64>, front: seq<string>, last: string)
    requires ProperParts(front) && Fills(fields, front)
    requires FieldOf(last).Some? && FieldOf(last).value.key !in fields
    ensures ProperParts(front + [last])
    ensures Fills(fields[FieldOf(last).value.key := FieldOf(last).value.value], front + [last])
  {
    var parts, more := front + [last], fields[FieldOf(last).value.key := FieldOf(last).value.value];
    forall key | key in more ensures exists i :: 0 <= i < |parts| && FieldOf(parts[i]).value.key == key {
      if key in fields {
        var i :| 0 <= i < |front| && FieldOf(front[i]).value.key == key;
        assert parts[i] == front[i];
      } else {
        assert parts[|front|] == last;
      }
    }
  }

  lemma NotGrowing(fields: map<string, U64>, front: seq<string>, last: string)
    requires ProperParts(front) && Fills(fields, front)
    requires FieldOf(last).Some? ==> FieldOf(last).value.key in fields
    ensures !ProperParts(front + [last])
  {
    var parts := front + [last];
    assert parts[|front|] == last;
    if FieldOf(last).Some? {
      var i :| 0 <= i < |front| && FieldOf(front[i]).value.key == FieldOf(last).value.key;
      assert parts[i] == front[i];
    }
  }

  // ----- settings

  const AES: string := "aes-kdf"
  const ARGON2D: string := "argon2d"
  const ARGON2ID: string := "argon2id"
  const ROUNDS: string := "rounds"
  const MEMORY: string := "memory"
  const ITERATIONS: string := "iterations"
  const PARALLELISM: string := "parallelism"
  const VERSION: string := "version"

  /** The settings a family name and a field table come to. */
  function Settle(family: string, fields: map<string, U64>): Result<Settings> {
    if family == AES then
      if ROUNDS !in fields then Err(Lacks(ROUNDS))
      else if fields.Keys != {ROUNDS} then Err(UnknownFields)
      else Ok(AesKdf(fields[ROUNDS]))
    else if family == ARGON2D || family == ARGON2ID then
      if MEMORY !in fields then Err(Lacks(MEMORY))
      else if ITERATIONS !in fields then Err(Lacks(ITERATIONS))
      else if PARALLELISM !in fields then Err(Lacks(PARALLELISM))
      else if fields[PARALLELISM] > U32_MAX then Err(OutOfRange(PARALLELISM))
      else if VERSION !in fields then Err(Lacks(VERSION))
      else if fields[VERSION] > U32_MAX then Err(OutOfRange(VERSION))
      else if fields.Keys != {MEMORY, ITERATIONS, PARALLELISM, VERSION} then Err(UnknownFields)
      else Ok(Argon2(if family == ARGON2D then Argon2d else Argon2id, fields[MEMORY], fields[ITERATIONS],
                     fields[PARALLELISM], fields[VERSION]))
    else Err(UnknownFamily(family))
  }

  function Parse(spec: string): Result<Settings> {
    var parts := Split(spec, ':');
    match FieldsOf(parts[1..])
    case Err(e) => Err(e)
    case Ok(fields) => Settle(parts[0], fields)
  }

  /** Fill the table from the parts, take the family's fields out of it, and
      demand that nothing is left. */
  method ParseSpec(spec: string) returns (r: Result<Settings>)
    ensures r == Parse(spec)
  {
    var parts := Split(spec, ':');
    var family := parts[0];
    var fields: map<string, U64> := map[];
    for i := 1 to |parts|
      invariant FieldsOf(parts[1..][..i - 1]) == Ok(fields)
    {
      assert parts[1..][..i][..i - 1] == parts[1..][..i - 1] && parts[1..][i - 1] == parts[i];
      match FieldOf(parts[i]) {
        case None =>
          FirstError(parts[1..], i);
          return Err(WhyNot(parts[i]));
        case Some(f) =>
          if f.key in fields {
            FirstError(parts[1..], i);
            return Err(Repeats(f.key));
          }
          fields := fields[f.key := f.value];
      }
    }
    assert parts[1..][..|parts| - 1] == parts[1..];
    ghost var all := fields;
    if family == AES {
      if ROUNDS !in fields {
        return Err(Lacks(ROUNDS));
      }
      var rounds := fields[ROUNDS];
      fields := fields - {ROUNDS};
      if fields != map[] {
        SomethingLeft(all, {ROUNDS});
        return Err(UnknownFields);
      }
      NothingLeft(all, {ROUNDS});
      return Ok(AesKdf(rounds));
    }
    if family != ARGON2D && family != ARGON2ID {
      return Err(UnknownFamily(family));
    }
    r, fields := TakeArgon2(family, fields);
    if r.Ok? && fields != map[] {
      SomethingLeft(all, {MEMORY, ITERATIONS, PARALLELISM, VERSION});
      r := Err(UnknownFields);
    } else if r.Ok? {
      NothingLeft(all, {MEMORY, ITERATIONS, PARALLELISM, VERSION});
    }
  }

  method TakeArgon2(family: string, all: map<string, U64>) returns (r: Result<Settings>, fields: map<string, U64>)
    requires family == ARGON2D || family == ARGON2ID
    ensures r.Ok? ==> fields == all - {MEMORY, ITERATIONS, PARALLELISM, VERSION}
    ensures r.Err? ==> r == Settle(family, all)
    ensures r.Ok? ==> {MEMORY, ITERATIONS, PARALLELISM, VERSION} <= all.Keys
    ensures r.Ok? ==> r == Settle(family, all) || Settle(family, all) == Err(UnknownFields)
    ensures r.Ok? && all.Keys == {MEMORY, ITERATIONS, PARALLELISM, VERSION} ==> r == Settle(family, all)
    ensures r.Ok? && all.Keys != {MEMORY, ITERATIONS, PARALLELISM, VERSION} ==> Settle(family, all) == Err(UnknownFields)
  {
    fields := all;
    if MEMORY !in fields { return Err(Lacks(MEMORY)), fields; }
    var memory := fields[MEMORY];
    fields := fields - {MEMORY};
    if ITERATIONS !in fields { return Err(Lacks(ITERATIONS)), fields; }
    var iterations := fields[ITERATIONS];
    fields := fields - {ITERATIONS};
    if PARALLELISM !in fields { return Err(Lacks(PARALLELISM)), fields; }
    var parallelism := fields[PARALLELISM];
    fields := fields - {PARALLELISM};
    if parallelism > U32_MAX { return Err(OutOfRange(PARALLELISM)), fields; }
    if VERSION !in fields { return Err(Lacks(VERSION)), fields; }
    var version := fields[VERSION];
    fields := fields - {VERSION};
    if version > U32_MAX { return Err(OutOfRange(VERSION)), fields; }
    r := Ok(Argon2(if family == ARGON2D then Argon2d else Argon2id, memory, iterations, parallelism, version));
  }

  lemma SomethingLeft(fields: map<string, U64>, taken: set<string>)
    requires fields - taken != map[]
    ensures fields.Keys != taken
  {
  }

  lemma NothingLeft(fields: map<string, U64>, taken: set<string>)
    requires fields - taken == map[] && taken <= fields.Keys
    ensures fields.Keys == taken
  {
    forall key | key in fields ensures key in taken {
      assert key !in (fields - taken);
    }
  }

  /** The first bad part decides the error. */
  lemma {:induction false} FirstError(parts: seq<string>, n: nat)
    requires 0 < n <= |parts| && FieldsOf(parts[..n]).Err?
    ensures FieldsOf(parts) == FieldsOf(parts[..n])
    decreases |parts|
  {
    if n == |parts| {
      assert parts[..n] == parts;
    } else {
      var front := parts[..|parts| - 1];
      assert front[..n] == parts[..n];
      FirstError(front, n);
    }
  }

  /** What is wrong with `part` after `front`: it has no equals sign; or what follows the
      first one is no number; or its key came before. */
  ghost predicate Blames(e: SpecError, front: seq<string>, part: string) {
    match e
    case NoEquals(p) => p == part && Free(part, '=')
    case NotANumber(key) => exists text :: part == key + "=" + text && Free(key, '=') && ParseU64(text).None?
    case Repeats(key) => Starts(part, key) && exists i :: 0 <= i < |front| && Starts(front[i], key)
    case _ => false
  }

  /** The part sets `key`. */
  ghost predicate Starts(part: string, key: string) {
    exists text :: part == key + "=" + text && Free(key, '=') && ParseU64(text).Some?
  }

  lemma FieldStarts(part: string)
    requires FieldOf(part).Some?
    ensures Starts(part, FieldOf(part).value.key)
  {
    SplitOnceMeans(part);
  }

  /** A table that cannot be filled is refused for its first bad part. */
  lemma {:induction false} FirstBadPart(parts: seq<string>)
    requires FieldsOf(parts).Err?
    ensures exists n :: 0 <= n < |parts| && ProperParts(parts[..n]) && Blames(FieldsOf(parts).error, parts[..n], parts[n])
  {
    var front, last := parts[..|parts| - 1], parts[|parts| - 1];
    if FieldsOf(front).Err? {
      FirstBadPart(front);
      var n :| 0 <= n < |front| && ProperParts(front[..n]) && Blames(FieldsOf(front).error, front[..n], front[n]);
      assert parts[..n] == front[..n] && parts[n] == front[n];
    } else {
      FieldsExactly(front);
      SplitOnceMeans(last);
      if FieldOf(last).Some? {
        FieldStarts(last);
        var i :| 0 <= i < |front| && FieldOf(front[i]).value.key == FieldOf(last).value.key;
        FieldStarts(front[i]);
      }
      assert Blames(FieldsOf(parts).error, front, last);
    }
  }

  // ----- formatting

  function FamilyName(s: Settings): string {
    match s
    case AesKdf(_) => AES
    case Argon2(kind, _, _, _, _) => if kind == Argon2d then ARGON2D else ARGON2ID
  }

  function NamedFields(s: Settings): seq<Field> {
    match s
    case AesKdf(rounds) => [Field(ROUNDS, rounds)]
    case Argon2(_, memory, iterations, parallelism, version) =>
      [Field(MEMORY, memory), Field(ITERATIONS, iterations), Field(PARALLELISM, parallelism), Field(VERSION, version)]
  }

  function FormatSpec(s: Settings): string {
    match s
    case AesKdf(rounds) => AES + ":" + PartOf(Field(ROUNDS, rounds))
    case Argon2(_, memory, iterations, parallelism, version) =>
      FamilyName(s) + ":" + PartOf(Field(MEMORY, memory)) + ":" + PartOf(Field(ITERATIONS, iterations))
      + ":" + PartOf(Field(PARALLELISM, parallelism)) + ":" + PartOf(Field(VERSION, version))
  }

  /** One field as it is written. */
  function PartOf(f: Field): string {
    f.key + "=" + Print(f.value)
  }

  /** `parts` give each of the fields of `s` once, in any order and any accepted
      spelling of the numbers, and nothing else. */
  ghost predicate SpellFields(parts: seq<string>, s: Settings) {
    var named := NamedFields(s);
    && ProperParts(parts)
    && (forall i :: 0 <= i < |parts| ==> FieldOf(parts[i]).value in named)
    && (forall f :: f in named ==> Given(parts, f))
  }

  ghost predicate Given(parts: seq<string>, f: Field) {
    exists i :: 0 <= i < |parts| && FieldOf(parts[i]) == Some(f)
  }

  ghost predicate Spells(spec: string, s: Settings) {
    Split(spec, ':')[0] == FamilyName(s) && SpellFields(Split(spec, ':')[1..], s)
  }

  lemma SettledFields(family: string, fields: map<string, U64>, s: Settings)
    requires Settle(family, fields) == Ok(s)
    ensures family == FamilyName(s)
    ensures forall f: Field :: f in NamedFields(s) <==> f.key in fields && fields[f.key] == f.value
  {
    if family == AES {
      assert fields.Keys == {ROUNDS};
    } else {
      assert fields.Keys == {MEMORY, ITERATIONS, PARALLELISM, VERSION};
    }
  }

  lemma NamedFieldsSettle(family: string, fields: map<string, U64>, s: Settings)
    requires family == FamilyName(s)
    requires forall f: Field :: f in NamedFields(s) <==> f.key in fields && fields[f.key] == f.value
    ensures Settle(family, fields) == Ok(s)
  {
    var named := NamedFields(s);
    match s
    case AesKdf(rounds) =>
      assert named[0] in named;
      forall key | key in fields ensures key in {ROUNDS} {
        assert Field(key, fields[key]) in named;
      }
      assert fields.Keys == {ROUNDS};
    case Argon2(_, _, _, _, _) =>
      assert named[0] in named && named[1] in named && named[2] in named && named[3] in named;
      forall key | key in fields ensures key in {MEMORY, ITERATIONS, PARALLELISM, VERSION} {
        assert Field(key, fields[key]) in named;
      }
      assert fields.Keys == {MEMORY, ITERATIONS, PARALLELISM, VERSION};
  }

  /** The field table holds exactly the fields the parts give. */
  lemma TableIsParts(parts: seq<string>, f: Field)
    requires ProperParts(parts)
    ensures FieldsOf(parts).Ok?
    ensures f.key in FieldsOf(parts).value && FieldsOf(parts).value[f.key] == f.value <==> Given(parts, f)
  {
    FieldsExactly(parts);
    var fields := FieldsOf(parts).value;
    if f.key in fields && fields[f.key] == f.value {
      var i :| 0 <= i < |parts| && FieldOf(parts[i]).value.key == f.key;
      assert FieldOf(parts[i]) == Some(f);
    }
  }

  /** A spec is accepted, and means `s`, exactly if it spells `s`. */
  lemma AcceptsExactly(spec: string, s: Settings)
    ensures Parse(spec) == Ok(s) <==> Spells(spec, s)
  {
    var family, parts := Split(spec, ':')[0], Split(spec, ':')[1..];
    FieldsExactly(parts);
    if ProperParts(parts) {
      forall f: Field
        ensures f.key in FieldsOf(parts).value && FieldsOf(parts).value[f.key] == f.value <==> Given(parts, f)
      {
        TableIsParts(parts, f);
      }
      SettlesExactly(family, parts, FieldsOf(parts).value, s);
    }
  }

  lemma SettlesExactly(family: string, parts: seq<string>, fields: map<string, U64>, s: Settings)
    requires ProperParts(parts)
    requires forall f: Field :: f.key in fields && fields[f.key] == f.value <==> Given(parts, f)
    ensures Settle(family, fields) == Ok(s) <==> family == FamilyName(s) && SpellFields(parts, s)
  {
    if Settle(family, fields) == Ok(s) {
      SettledFields(family, fields, s);
      forall i | 0 <= i < |parts| ensures FieldOf(parts[i]).value in NamedFields(s) {
        assert Given(parts, FieldOf(parts[i]).value);
      }
    }
    if family == FamilyName(s) && SpellFields(parts, s) {
      NamedFieldsSettle(family, fields, s);
    }
  }

  // ----- round trip

  function Parts(s: Settings): seq<string> {
    var named := NamedFields(s);
    [FamilyName(s)] + seq(|named|, i requires 0 <= i < |named| => PartOf(named[i]))
  }

  lemma JoinTwo(a: string, b: string)
    ensures Join([a, b], ':') == a + ":" + b
  {
    assert [a, b][1..] == [b];
  }

  lemma JoinFive(a: string, b: string, c: string, d: string, e: string)
    ensures Join([a, b, c, d, e], ':') == a + ":" + b + ":" + c + ":" + d + ":" + e
  {
    JoinTwo(d, e);
    JoinMore(c, [d, e]);
    JoinMore(b, [c, d, e]);
    JoinMore(a, [b, c, d, e]);
    assert a + ":" + b + ":" + c + ":" + d + ":" + e == a + ":" + (b + ":" + (c + ":" + (d + ":" + e)));
  }

  lemma JoinMore(a: string, rest: seq<string>)
    requires |rest| > 0
    ensures Join([a] + rest, ':') == a + ":" + Join(rest, ':')
  {
    assert ([a] + rest)[1..] == rest;
  }

  lemma FormatIsJoin(s: Settings)
    ensures FormatSpec(s) == Join(Parts(s), ':')
  {
    match s
    case AesKdf(rounds) =>
      var a := PartOf(Field(ROUNDS, rounds));
      assert Parts(s) == [AES, a];
      JoinTwo(AES, a);
    case Argon2(_, memory, iterations, parallelism, version) =>
      var name := FamilyName(s);
      var a, b := PartOf(Field(MEMORY, memory)), PartOf(Field(ITERATIONS, iterations));
      var c, d := PartOf(Field(PARALLELISM, parallelism)), PartOf(Field(VERSION, version));
      assert Parts(s) == [name, a, b, c, d];
      JoinFive(name, a, b, c, d);
  }

  lemma PrintedPart(f: Field)
    requires Free(f.key, '=') && Free(f.key, ':')
    ensures FieldOf(PartOf(f)) == Some(f) && Free(PartOf(f), ':')
  {
    SplitOnceFinds(f.key, Print(f.value));
    ParsePrinted(f.value);
    ValueOfPrint(f.value);
  }

  /** Parsing undoes formatting for all settings. */
  lemma ParseUndoesFormat(s: Settings)
    ensures Parse(FormatSpec(s)) == Ok(s)
  {
    FormatIsJoin(s);
    PartsSpell(s);
    SplitJoined(Parts(s), ':');
    AcceptsExactly(FormatSpec(s), s);
  }

  lemma PartsSpell(s: Settings)
    ensures forall i :: 0 <= i < |Parts(s)| ==> Free(Parts(s)[i], ':')
    ensures SpellFields(Parts(s)[1..], s)
  {
    var named, parts := NamedFields(s), Parts(s)[1..];
    forall i | 0 <= i < |named| ensures parts[i] == PartOf(named[i]) && FieldOf(parts[i]) == Some(named[i]) && Free(parts[i], ':') {
      NamesAreFree(s, i);
      PrintedPart(named[i]);
    }
    NamesAreFree(s, 0);
    forall i, j | 0 <= i < j < |named| ensures named[i].key != named[j].key {
      NamesDiffer(s, i, j);
    }
    forall f | f in named ensures Given(parts, f) {
      var i :| 0 <= i < |named| && named[i] == f;
      assert FieldOf(parts[i]) == Some(f);
    }
  }

  lemma NamesDiffer(s: Settings, i: nat, j: nat)
    requires i < j < |NamedFields(s)|
    ensures NamedFields(s)[i].key != NamedFields(s)[j].key
  {
    assert |MEMORY| == 6 && |ITERATIONS| == 10 && |PARALLELISM| == 11 && |VERSION| == 7;
  }

  lemma NamesAreFree(s: Settings, i: nat)
    requires i < |NamedFields(s)|
    ensures Free(NamedFields(s)[i].key, '=') && Free(NamedFields(s)[i].key, ':') && Free(FamilyName(s), ':')
  {
  }

  /** Formatting what a spec means is a normal form: specs that mean the same
      normalise alike, and only those. */
  lemma NormalFormDecides(a: string, b: string)
    requires Parse(a).Ok? && Parse(b).Ok?
    ensures FormatSpec(Parse(a).value) == FormatSpec(Parse(b).value) <==> Parse(a) == Parse(b)
    ensures Parse(FormatSpec(Parse(a).value)) == Parse(a)
  {
    ParseUndoesFormat(Parse(a).value);
    ParseUndoesFormat(Parse(b).value);
  }

  lemma ReorderedProper(a: seq<string>, b: seq<string>)
    requires ProperParts(a) && multiset(a) == multiset(b)
    ensures ProperParts(b)
  {
    forall i | 0 <= i < |b| ensures exists k :: 0 <= k < |a| && a[k] == b[i] {
      assert multiset(b)[b[i]] > 0;
      assert b[i] in a;
    }
    forall i, j | 0 <= i < j < |a| ensures a[i] != a[j] {
      assert FieldOf(a[i]).value.key != FieldOf(a[j]).value.key;
    }
    DistinctCounts(a);
    forall i, j | 0 <= i < j < |b| ensures FieldOf(b[i]).value.key != FieldOf(b[j]).value.key {
      if b[i] == b[j] {
        TwiceCounts(b, i, j);
      } else {
        var k :| 0 <= k < |a| && a[k] == b[i];
        var l :| 0 <= l < |a| && a[l] == b[j];
        assert FieldOf(a[if k < l then k else l]).value.key != FieldOf(a[if k < l then l else k]).value.key;
      }
    }
  }

  /** The order of a spec's fields does not matter. */
  lemma FieldOrderIsFree(spec: string, other: string, s: Settings)
    requires Parse(spec) == Ok(s)
    requires Split(other, ':')[0] == Split(spec, ':')[0]
    requires multiset(Split(other, ':')[1..]) == multiset(Split(spec, ':')[1..])
    ensures Parse(other) == Ok(s)
  {
    AcceptsExactly(spec, s);
    ReorderedSpell(Split(spec, ':')[1..], Split(other, ':')[1..], s);
    AcceptsExactly(other, s);
  }

  lemma ReorderedSpell(a: seq<string>, b: seq<string>, s: Settings)
    requires SpellFields(a, s) && multiset(a) == multiset(b)
    ensures SpellFields(b, s)
  {
    ReorderedProper(a, b);
    forall x ensures x in a <==> x in b {
      assert multiset(a)[x] == multiset(b)[x];
    }
    forall i | 0 <= i < |b| ensures FieldOf(b[i]).value in NamedFields(s) {
      assert b[i] in a;
    }
    forall f | f in NamedFields(s) ensures Given(b, f) {
      var k :| 0 <= k < |a| && FieldOf(a[k]) == Some(f);
      assert a[k] in b;
    }
  }
}
