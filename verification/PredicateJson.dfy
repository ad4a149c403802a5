/** The smart-folder predicate tree and its tolerant JSON form. */
module PredicateJson {
  import opened Order

  const U64_MAX: nat := 0xffff_ffff_ffff_ffff
  const I64_MIN: int := -0x8000_0000_0000_0000
  const I64_MAX: int := 0x7fff_ffff_ffff_ffff

  type U64 = n: nat | n <= U64_MAX
  type I64 = n: int | I64_MIN <= n <= I64_MAX
  type Nanos = n: nat | n < 1_000_000_000

  // ----- values (section 3 of RFC 8259)

  datatype Json =
    | Null
    | Bool(b: bool)
    | Int(n: int)
    | Real(r: real)
    | Str(s: string)
    | Arr(items: seq<Json>)
    | Obj(fields: map<string, Json>)

  datatype Result<+T> = Ok(value: T) | Err

  datatype Bucket = VeryWeak | Weak | Reasonable | Strong | VeryStrong

  datatype Duration = Duration(secs: U64, nanos: Nanos)

  datatype Predicate =
    | And(predicates: seq<Predicate>)
    | Or(predicates: seq<Predicate>)
    | Not(negated: Predicate)
    | TitleContains(substring: string)
    | UrlContains(substring: string)
    | UsernameContains(substring: string)
    | UrlHostEquals(host: string)
    | TagEquals(tag: string)
    | TagHasAny(tags: seq<string>)
    | TagHasAll(tags: seq<string>)
    | ModifiedWithin(duration: Duration)
    | ModifiedBefore(timestampMs: I64)
    | Expired
    | ExpiringWithin(duration: Duration)
    | StrengthBelow(bucket: Bucket)
    | EntropyBelow(bits: real)
    | Duplicates
    | Group(uuid: Uuid)
    | Unknown(raw: Json)

  predicate IsEvaluable(p: Predicate)
    decreases p, 0
  {
    match p
    case Unknown(_) => false
    case And(ps) => AllEvaluable(ps)
    case Or(ps) => AllEvaluable(ps)
    case Not(q) => IsEvaluable(q)
    case _ => true
  }

  predicate AllEvaluable(ps: seq<Predicate>)
    decreases ps, 1
  {
    ps == [] || (IsEvaluable(ps[0]) && AllEvaluable(ps[1..]))
  }

  // ----- discriminators

  datatype Tag = TAnd | TOr | TNot | TTitle | TUrl | TUsername | THost | TTagEquals | TTagAny | TTagAll
    | TModifiedWithin | TModifiedBefore | TExpired | TExpiring | TStrength | TEntropy | TDuplicates | TGroup

  function TagName(t: Tag): string {
    match t
    case TAnd => "and"
    case TOr => "or"
    case TNot => "not"
    case TTitle => "title_contains"
    case TUrl => "url_contains"
    case TUsername => "username_contains"
    case THost => "url_host_equals"
    case TTagEquals => "tag_equals"
    case TTagAny => "tag_has_any"
    case TTagAll => "tag_has_all"
    case TModifiedWithin => "modified_within"
    case TModifiedBefore => "modified_before"
    case TExpired => "expired"
    case TExpiring => "expiring_within"
    case TStrength => "strength_below"
    case TEntropy => "entropy_below"
    case TDuplicates => "duplicates"
    case TGroup => "group"
  }

  /** The discriminators a decoder of this version recognises. */
  const KNOWN_TYPES: seq<string> := [
    "and", "or", "not", "title_contains", "url_contains", "username_contains", "url_host_equals", "tag_equals",
    "tag_has_any", "tag_has_all", "modified_within", "modified_before", "expired", "expiring_within",
    "strength_below", "entropy_below", "duplicates", "group"
  ]

  const ALL_TAGS: seq<Tag> := [TAnd, TOr, TNot, TTitle, TUrl, TUsername, THost, TTagEquals, TTagAny, TTagAll,
    TModifiedWithin, TModifiedBefore, TExpired, TExpiring, TStrength, TEntropy, TDuplicates, TGroup]

  function FindTag(name: string, tags: seq<Tag>): Option<Tag> {
    if tags == [] then None else if TagName(tags[0]) == name then Some(tags[0]) else FindTag(name, tags[1..])
  }

  function TagOf(name: string): Option<Tag> {
    FindTag(name, ALL_TAGS)
  }

  lemma NamesDiffer(a: Tag, b: Tag)
    requires a != b
    ensures TagName(a) != TagName(b)
  {
    var x, y := TagName(a), TagName(b);
    if |x| == |y| {
      assert x[0] != y[0] || (|x| > 9 && x[9] != y[9]);
    }
  }

  /** The decoder's list of known types and its variants are in lock-step. */
  lemma KnownTypesAreTags(name: string)
    ensures name in KNOWN_TYPES <==> TagOf(name).Some?
    ensures TagOf(name).Some? ==> TagName(TagOf(name).value) == name
  {
    ListsAgree();
    NamesAreTags(name, KNOWN_TYPES, ALL_TAGS);
  }

  lemma ListsAgree()
    ensures |KNOWN_TYPES| == |ALL_TAGS| && forall i :: 0 <= i < |ALL_TAGS| ==> KNOWN_TYPES[i] == TagName(ALL_TAGS[i])
  {
  }

  lemma NamesAreTags(name: string, names: seq<string>, tags: seq<Tag>)
    requires |names| == |tags| && forall i :: 0 <= i < |tags| ==> names[i] == TagName(tags[i])
    ensures name in names <==> FindTag(name, tags).Some?
    ensures FindTag(name, tags).Some? ==> TagName(FindTag(name, tags).value) == name
  {
    FindTagMeans(name, tags);
  }

  lemma {:induction false} FindTagMeans(name: string, tags: seq<Tag>)
    ensures FindTag(name, tags).Some? ==> FindTag(name, tags).value in tags && TagName(FindTag(name, tags).value) == name
    ensures FindTag(name, tags).None? ==> forall t :: t in tags ==> TagName(t) != name
  {
    if tags != [] {
      FindTagMeans(name, tags[1..]);
    }
  }

  lemma TagNamed(t: Tag)
    ensures TagOf(TagName(t)) == Some(t) && TagName(t) in KNOWN_TYPES
  {
    FindTagMeans(TagName(t), ALL_TAGS);
    EveryTag(t);
    var found := FindTag(TagName(t), ALL_TAGS);
    if found != Some(t) && found.Some? {
      NamesDiffer(t, found.value);
    }
    KnownTypesAreTags(TagName(t));
  }

  lemma EveryTag(t: Tag)
    ensures t in ALL_TAGS
  {
    match t
    case TAnd => assert ALL_TAGS[0] == t;
    case TOr => assert ALL_TAGS[1] == t;
    case TNot => assert ALL_TAGS[2] == t;
    case TTitle => assert ALL_TAGS[3] == t;
    case TUrl => assert ALL_TAGS[4] == t;
    case TUsername => assert ALL_TAGS[5] == t;
    case THost => assert ALL_TAGS[6] == t;
    case TTagEquals => assert ALL_TAGS[7] == t;
    case TTagAny => assert ALL_TAGS[8] == t;
    case TTagAll => assert ALL_TAGS[9] == t;
    case TModifiedWithin => assert ALL_TAGS[10] == t;
    case TModifiedBefore => assert ALL_TAGS[11] == t;
    case TExpired => assert ALL_TAGS[12] == t;
    case TExpiring => assert ALL_TAGS[13] == t;
    case TStrength => assert ALL_TAGS[14] == t;
    case TEntropy => assert ALL_TAGS[15] == t;
    case TDuplicates => assert ALL_TAGS[16] == t;
    case TGroup => assert ALL_TAGS[17] == t;
  }

  // ----- encoding

  /** How the id library writes an id and reads one. */
  datatype UuidText = UuidText(show: Uuid -> string, parse: string -> Option<Uuid>)

  ghost predicate Inverse(text: UuidText) {
    forall u: Uuid :: text.parse(text.show(u)) == Some(u)
  }

  function BucketName(b: Bucket): string {
    match b
    case VeryWeak => "very_weak"
    case Weak => "weak"
    case Reasonable => "reasonable"
    case Strong => "strong"
    case VeryStrong => "very_strong"
  }

  function BucketOf(name: string): Option<Bucket> {
    if name == "very_weak" then Some(VeryWeak)
    else if name == "weak" then Some(Weak)
    else if name == "reasonable" then Some(Reasonable)
    else if name == "strong" then Some(Strong)
    else if name == "very_strong" then Some(VeryStrong)
    else None
  }

  lemma BucketNamed(b: Bucket)
    ensures BucketOf(BucketName(b)) == Some(b)
  {
  }

  function Node(tag: Tag, key: string, value: Json): Json {
    Obj(map[key := value]["type" := Str(TagName(tag))])
  }

  function Unit(tag: Tag): Json {
    Obj(map["type" := Str(TagName(tag))])
  }

  function Strs(strings: seq<string>): (items: seq<Json>)
    ensures |items| == |strings| && forall i :: 0 <= i < |items| ==> items[i] == Str(strings[i])
  {
    seq(|strings|, i requires 0 <= i < |strings| => Str(strings[i]))
  }

  function Encode(text: UuidText, p: Predicate): Json
    decreases p, 0
  {
    match p
    case And(ps) => Node(TAnd, "predicates", Arr(EncodeAll(text, ps)))
    case Or(ps) => Node(TOr, "predicates", Arr(EncodeAll(text, ps)))
    case Not(q) => Node(TNot, "predicate", Encode(text, q))
    case Expired => Unit(TExpired)
    case Duplicates => Unit(TDuplicates)
    case Unknown(raw) => raw
    case _ => var leaf := LeafOf(text, p); Node(leaf.tag, leaf.key, leaf.value)
  }

  predicate HasOneField(p: Predicate) {
    !p.And? && !p.Or? && !p.Not? && !p.Expired? && !p.Duplicates? && !p.Unknown?
  }

  datatype Leaf = Leaf(tag: Tag, key: string, value: Json)

  /** A leaf's discriminator and its one field. */
  function LeafOf(text: UuidText, p: Predicate): (leaf: Leaf)
    requires HasOneField(p)
    ensures leaf.key != "type"
  {
    match p
    case TitleContains(s) => Leaf(TTitle, "substring", Str(s))
    case UrlContains(s) => Leaf(TUrl, "substring", Str(s))
    case UsernameContains(s) => Leaf(TUsername, "substring", Str(s))
    case UrlHostEquals(h) => Leaf(THost, "host", Str(h))
    case TagEquals(t) => Leaf(TTagEquals, "tag", Str(t))
    case TagHasAny(ts) => Leaf(TTagAny, "tags", Arr(Strs(ts)))
    case TagHasAll(ts) => Leaf(TTagAll, "tags", Arr(Strs(ts)))
    case ModifiedWithin(d) => Leaf(TModifiedWithin, "duration", Int(d.secs))
    case ModifiedBefore(t) => Leaf(TModifiedBefore, "timestamp_ms", Int(t))
    case ExpiringWithin(d) => Leaf(TExpiring, "duration", Int(d.secs))
    case StrengthBelow(b) => Leaf(TStrength, "bucket", Str(BucketName(b)))
    case EntropyBelow(bits) => Leaf(TEntropy, "bits", Real(bits))
    case Group(u) => Leaf(TGroup, "uuid", Str(text.show(u)))
  }

  function EncodeAll(text: UuidText, ps: seq<Predicate>): seq<Json>
    decreases ps, 1
  {
    if ps == [] then [] else [Encode(text, ps[0])] + EncodeAll(text, ps[1..])
  }

  // ----- decoding

  predicate HasType(j: Json) {
    j.Obj? && "type" in j.fields && j.fields["type"].Str?
  }

  /** The discriminator is there but not one of this version's. */
  predicate IsUnknownTypeError(j: Json) {
    HasType(j) && j.fields["type"].s !in KNOWN_TYPES
  }

  predicate IsU64(j: Json) {
    j.Int? && 0 <= j.n <= U64_MAX
  }

  predicate AllStr(items: seq<Json>) {
    forall i :: 0 <= i < |items| ==> items[i].Str?
  }

  function Unstr(items: seq<Json>): (strings: seq<string>)
    requires AllStr(items)
    ensures |strings| == |items| && forall i :: 0 <= i < |items| ==> strings[i] == items[i].s
  {
    seq(|items|, i requires 0 <= i < |items| => items[i].s)
  }

  function Decode(text: UuidText, j: Json): Result<Predicate>
    decreases j, 2
  {
    match DecodeKnown(text, j)
    case Ok(known) => Ok(known)
    case Err => if IsUnknownTypeError(j) then Ok(Unknown(j)) else Err
  }

  function DecodeKnown(text: UuidText, j: Json): (r: Result<Predicate>)
    ensures r.Ok? ==> !r.value.Unknown?
    decreases j, 1
  {
    if !HasType(j) then Err
    else
      match TagOf(j.fields["type"].s)
      case None => Err
      case Some(tag) => DecodeAs(text, tag, j)
  }

  function DecodeAll(text: UuidText, items: seq<Json>): Result<seq<Predicate>>
    decreases items, 3
  {
    if items == [] then Ok([])
    else
      match Decode(text, items[0])
      case Err => Err
      case Ok(first) =>
        match DecodeAll(text, items[1..])
        case Err => Err
        case Ok(rest) => Ok([first] + rest)
  }

  function StrAt(f: map<string, Json>, key: string): Option<string> {
    if key in f && f[key].Str? then Some(f[key].s) else None
  }

  function StrsAt(f: map<string, Json>, key: string): Option<seq<string>> {
    if key in f && f[key].Arr? && AllStr(f[key].items) then Some(Unstr(f[key].items)) else None
  }

  function SecondsAt(f: map<string, Json>): Option<Duration> {
    if "duration" in f && IsU64(f["duration"]) then Some(Duration(f["duration"].n, 0)) else None
  }

  function Built<T>(field: Option<T>, build: T -> Predicate): Result<Predicate> {
    match field
    case None => Err
    case Some(value) => Ok(build(value))
  }

  function DecodeAs(text: UuidText, tag: Tag, j: Json): (r: Result<Predicate>)
    requires j.Obj?
    ensures r.Ok? ==> !r.value.Unknown?
    decreases j, 0
  {
    var f := j.fields;
    match tag
    case TAnd =>
      if "predicates" !in f || !f["predicates"].Arr? then Err
      else
        (match DecodeAll(text, f["predicates"].items)
         case Err => Err
         case Ok(ps) => Ok(And(ps)))
    case TOr =>
      if "predicates" !in f || !f["predicates"].Arr? then Err
      else
        (match DecodeAll(text, f["predicates"].items)
         case Err => Err
         case Ok(ps) => Ok(Or(ps)))
    case TNot =>
      if "predicate" !in f then Err
      else
        (match Decode(text, f["predicate"])
         case Err => Err
         case Ok(q) => Ok(Not(q)))
    case TTitle => Built(StrAt(f, "substring"), s => TitleContains(s))
    case TUrl => Built(StrAt(f, "substring"), s => UrlContains(s))
    case TUsername => Built(StrAt(f, "substring"), s => UsernameContains(s))
    case THost => Built(StrAt(f, "host"), s => UrlHostEquals(s))
    case TTagEquals => Built(StrAt(f, "tag"), s => TagEquals(s))
    case TTagAny => Built(StrsAt(f, "tags"), ts => TagHasAny(ts))
    case TTagAll => Built(StrsAt(f, "tags"), ts => TagHasAll(ts))
    case TModifiedWithin => Built(SecondsAt(f), d => ModifiedWithin(d))
    case TModifiedBefore =>
      if "timestamp_ms" in f && f["timestamp_ms"].Int? && I64_MIN <= f["timestamp_ms"].n <= I64_MAX
      then Ok(ModifiedBefore(f["timestamp_ms"].n)) else Err
    case TExpired => Ok(Expired)
    case TExpiring => Built(SecondsAt(f), d => ExpiringWithin(d))
    case TStrength =>
      (match StrAt(f, "bucket")
       case None => Err
       case Some(name) => Built(BucketOf(name), b => StrengthBelow(b)))
    case TEntropy =>
      if "bits" !in f then Err
      else if f["bits"].Int? then Ok(EntropyBelow(f["bits"].n as real))
      else if f["bits"].Real? then Ok(EntropyBelow(f["bits"].r))
      else Err
    case TDuplicates => Ok(Duplicates)
    case TGroup =>
      (match StrAt(f, "uuid")
       case None => Err
       case Some(s) => Built(text.parse(s), (u: Uuid) => Group(u)))
  }

  // ----- decode after encode

  /** Every unknown node is an object with an unrecognised type, and every
      duration is a whole number of seconds. */
  predicate Faithful(p: Predicate)
    decreases p, 0
  {
    match p
    case And(ps) => AllFaithful(ps)
    case Or(ps) => AllFaithful(ps)
    case Not(q) => Faithful(q)
    case ModifiedWithin(d) => d.nanos == 0
    case ExpiringWithin(d) => d.nanos == 0
    case Unknown(raw) => IsUnknownTypeError(raw)
    case _ => true
  }

  predicate AllFaithful(ps: seq<Predicate>)
    decreases ps, 1
  {
    ps == [] || (Faithful(ps[0]) && AllFaithful(ps[1..]))
  }

  lemma NodeDecodes(text: UuidText, tag: Tag, key: string, value: Json)
    requires key != "type"
    ensures var j := Node(tag, key, value);
            j.fields[key] == value && Decode(text, j) == DecodeAs(text, tag, j)
  {
    TagNamed(tag);
  }

  /** Decoding undoes encoding exactly for the faithful trees, at any nesting. */
  lemma {:induction false} RoundTrip(text: UuidText, p: Predicate)
    requires Inverse(text)
    ensures Decode(text, Encode(text, p)) == Ok(p) <==> Faithful(p)
    decreases p, 0
  {
    match p
    case And(ps) =>
      NodeDecodes(text, TAnd, "predicates", Arr(EncodeAll(text, ps)));
      RoundTripAll(text, ps);
    case Or(ps) =>
      NodeDecodes(text, TOr, "predicates", Arr(EncodeAll(text, ps)));
      RoundTripAll(text, ps);
    case Not(q) =>
      NodeDecodes(text, TNot, "predicate", Encode(text, q));
      RoundTrip(text, q);
    case Unknown(raw) => UnknownExactly(text, raw);
    case Expired => RoundTripUnit(text, p, TExpired);
    case Duplicates => RoundTripUnit(text, p, TDuplicates);
    case _ => RoundTripLeaf(text, p);
  }

  lemma RoundTripUnit(text: UuidText, p: Predicate, tag: Tag)
    requires (p.Expired? && tag.TExpired?) || (p.Duplicates? && tag.TDuplicates?)
    ensures Decode(text, Unit(tag)) == Ok(p)
  {
    UnitDecodes(text, tag);
    UnitBack(text, p, tag, Unit(tag));
  }

  /** A variant without fields needs none. */
  lemma UnitBack(text: UuidText, p: Predicate, tag: Tag, j: Json)
    requires (p.Expired? && tag.TExpired?) || (p.Duplicates? && tag.TDuplicates?)
    requires j.Obj? && Decode(text, j) == DecodeAs(text, tag, j)
    ensures Decode(text, j) == Ok(p)
  {
  }

  lemma UnitDecodes(text: UuidText, tag: Tag)
    ensures Decode(text, Unit(tag)) == DecodeAs(text, tag, Unit(tag))
  {
    TagNamed(tag);
  }

  lemma RoundTripLeaf(text: UuidText, p: Predicate)
    requires Inverse(text) && HasOneField(p)
    ensures Decode(text, Encode(text, p)) == Ok(p) <==> Faithful(p)
  {
    var leaf := LeafOf(text, p);
    NodeDecodes(text, leaf.tag, leaf.key, leaf.value);
    LeafBack(text, p, leaf);
  }

  /** A leaf's one field decodes to the leaf, except for the sub-second precision
      that encoding drops. */
  lemma LeafBack(text: UuidText, p: Predicate, leaf: Leaf)
    requires Inverse(text) && HasOneField(p) && leaf == LeafOf(text, p)
    ensures DecodeAs(text, leaf.tag, Node(leaf.tag, leaf.key, leaf.value)) == Ok(p) <==> Faithful(p)
  {
    match p
    case TagHasAny(ts) => assert Unstr(Strs(ts)) == ts;
    case TagHasAll(ts) => assert Unstr(Strs(ts)) == ts;
    case StrengthBelow(b) => BucketNamed(b);
    case _ =>
  }

  lemma {:induction false} RoundTripAll(text: UuidText, ps: seq<Predicate>)
    requires Inverse(text)
    ensures DecodeAll(text, EncodeAll(text, ps)) == Ok(ps) <==> AllFaithful(ps)
    decreases ps, 1
  {
    if ps != [] {
      RoundTrip(text, ps[0]);
      RoundTripAll(text, ps[1..]);
      assert EncodeAll(text, ps)[1..] == EncodeAll(text, ps[1..]);
      assert ps == [ps[0]] + ps[1..];
    }
  }

  /** A node decodes to the catch-all exactly if its type is unrecognised, and then
      it is kept, and encoded again, verbatim. */
  lemma UnknownExactly(text: UuidText, j: Json)
    ensures (exists raw :: Decode(text, j) == Ok(Unknown(raw))) <==> IsUnknownTypeError(j)
    ensures IsUnknownTypeError(j) ==> Decode(text, j) == Ok(Unknown(j)) && Encode(text, Unknown(j)) == j
  {
    if HasType(j) {
      KnownTypesAreTags(j.fields["type"].s);
    }
  }

  // ----- what decodes at all

  /** The nodes a node's known connective holds. */
  function Children(j: Json): (children: seq<Json>)
    ensures forall i :: 0 <= i < |children| ==> (j decreases to children[i])
  {
    if !HasType(j) then []
    else
      match TagOf(j.fields["type"].s)
      case Some(TAnd) => if "predicates" in j.fields && j.fields["predicates"].Arr? then j.fields["predicates"].items else []
      case Some(TOr) => if "predicates" in j.fields && j.fields["predicates"].Arr? then j.fields["predicates"].items else []
      case Some(TNot) => if "predicate" in j.fields then [j.fields["predicate"]] else []
      case _ => []
  }

  ghost predicate NodeOf(n: Json, j: Json)
    decreases j
  {
    n == j || exists i :: 0 <= i < |Children(j)| && NodeOf(n, Children(j)[i])
  }

  /** The node alone is acceptable: an object with a type, and if the type is a
      known one, that type's field is there in the right shape. */
  predicate WellShaped(text: UuidText, j: Json) {
    HasType(j) &&
    match TagOf(j.fields["type"].s)
    case None => true
    case Some(tag) =>
      var f := j.fields;
      match tag
      case TAnd => "predicates" in f && f["predicates"].Arr?
      case TOr => "predicates" in f && f["predicates"].Arr?
      case TNot => "predicate" in f
      case TTitle => StrAt(f, "substring").Some?
      case TUrl => StrAt(f, "substring").Some?
      case TUsername => StrAt(f, "substring").Some?
      case THost => StrAt(f, "host").Some?
      case TTagEquals => StrAt(f, "tag").Some?
      case TTagAny => StrsAt(f, "tags").Some?
      case TTagAll => StrsAt(f, "tags").Some?
      case TModifiedWithin => SecondsAt(f).Some?
      case TExpiring => SecondsAt(f).Some?
      case TModifiedBefore => "timestamp_ms" in f && f["timestamp_ms"].Int? && I64_MIN <= f["timestamp_ms"].n <= I64_MAX
      case TStrength => StrAt(f, "bucket").Some? && BucketOf(StrAt(f, "bucket").value).Some?
      case TEntropy => "bits" in f && (f["bits"].Int? || f["bits"].Real?)
      case TGroup => StrAt(f, "uuid").Some? && text.parse(StrAt(f, "uuid").value).Some?
      case TExpired => true
      case TDuplicates => true
  }

  /** A malformed known node anywhere in the tree is an error; nothing else is.
      What decodes is evaluable exactly if no node's type is unrecognised. */
  lemma {:induction false} DecodesExactly(text: UuidText, j: Json)
    ensures Decode(text, j).Ok? <==> forall n :: NodeOf(n, j) ==> WellShaped(text, n)
    ensures Decode(text, j).Ok? ==>
      (IsEvaluable(Decode(text, j).value) <==> forall n :: NodeOf(n, j) ==> !IsUnknownTypeError(n))
    decreases j
  {
    var children := Children(j);
    assert NodeOf(j, j);
    forall i, n | 0 <= i < |children| && NodeOf(n, children[i]) ensures NodeOf(n, j) {
    }
    forall i | 0 <= i < |children| {
      DecodesExactly(text, children[i]);
    }
    OneNode(text, j);
    DecodeAllMeans(text, children);
  }

  /** One step of the decoder: the node's own shape, and its children. */
  lemma OneNode(text: UuidText, j: Json)
    ensures Decode(text, j).Ok? <==> WellShaped(text, j) && DecodeAll(text, Children(j)).Ok?
    ensures Decode(text, j).Ok? ==>
      (IsEvaluable(Decode(text, j).value) <==> !IsUnknownTypeError(j) && AllEvaluable(DecodeAll(text, Children(j)).value))
  {
    if HasType(j) {
      KnownTypesAreTags(j.fields["type"].s);
      if TagOf(j.fields["type"].s).Some? {
        OneKnownNode(text, TagOf(j.fields["type"].s).value, j);
      }
    }
  }

  lemma OneKnownNode(text: UuidText, tag: Tag, j: Json)
    requires HasType(j) && TagOf(j.fields["type"].s) == Some(tag)
    ensures DecodeAs(text, tag, j).Ok? <==> WellShaped(text, j) && DecodeAll(text, Children(j)).Ok?
    ensures DecodeAs(text, tag, j).Ok? ==>
      (IsEvaluable(DecodeAs(text, tag, j).value) <==> AllEvaluable(DecodeAll(text, Children(j)).value))
  {
    match tag
    case TAnd =>
    case TOr =>
    case TNot =>
      if "predicate" in j.fields {
        DecodeOne(text, j.fields["predicate"]);
      }
    case _ => LeafNode(text, tag, j);
  }

  lemma LeafNode(text: UuidText, tag: Tag, j: Json)
    requires HasType(j) && TagOf(j.fields["type"].s) == Some(tag) && tag != TAnd && tag != TOr && tag != TNot
    ensures DecodeAs(text, tag, j).Ok? <==> WellShaped(text, j)
    ensures DecodeAs(text, tag, j).Ok? ==> IsEvaluable(DecodeAs(text, tag, j).value)
    ensures Children(j) == [] && DecodeAll(text, []) == Ok([]) && AllEvaluable([])
  {
  }

  lemma DecodeOne(text: UuidText, q: Json)
    ensures DecodeAll(text, [q]).Ok? <==> Decode(text, q).Ok?
    ensures Decode(text, q).Ok? ==>
      DecodeAll(text, [q]) == Ok([Decode(text, q).value])
      && (AllEvaluable([Decode(text, q).value]) <==> IsEvaluable(Decode(text, q).value))
  {
    assert [q][0] == q && [q][1..] == [] && DecodeAll(text, []) == Ok([]);
    if Decode(text, q).Ok? {
      var ps := [Decode(text, q).value];
      assert ps + [] == ps && ps[1..] == [];
    }
  }

  lemma {:induction false} DecodeAllMeans(text: UuidText, items: seq<Json>)
    ensures DecodeAll(text, items).Ok? <==> forall i :: 0 <= i < |items| ==> Decode(text, items[i]).Ok?
    ensures DecodeAll(text, items).Ok? ==>
      (AllEvaluable(DecodeAll(text, items).value) <==>
       forall i :: 0 <= i < |items| ==> IsEvaluable(Decode(text, items[i]).value))
  {
    if items != [] {
      DecodeAllMeans(text, items[1..]);
      forall i | 1 <= i < |items| ensures items[i] == items[1..][i - 1] {
      }
    }
  }

  /** Whatever decodes is faithful, so encoding it and decoding again gives the
      same tree: a stored folder settles after one reading. */
  lemma {:induction false} DecodedSettles(text: UuidText, j: Json)
    requires Inverse(text) && Decode(text, j).Ok?
    ensures Faithful(Decode(text, j).value)
    ensures Decode(text, Encode(text, Decode(text, j).value)) == Decode(text, j)
    decreases j
  {
    if HasType(j) && TagOf(j.fields["type"].s).Some? {
      var children := Children(j);
      forall i | 0 <= i < |children| && Decode(text, children[i]).Ok? ensures Faithful(Decode(text, children[i]).value) {
        DecodedSettles(text, children[i]);
      }
      AllDecodedFaithful(text, children);
      KnownNodeFaithful(text, TagOf(j.fields["type"].s).value, j);
      KnownTypesAreTags(j.fields["type"].s);
    }
    RoundTrip(text, Decode(text, j).value);
  }

  lemma {:induction false} AllDecodedFaithful(text: UuidText, items: seq<Json>)
    requires forall i :: 0 <= i < |items| && Decode(text, items[i]).Ok? ==> Faithful(Decode(text, items[i]).value)
    ensures DecodeAll(text, items).Ok? ==> AllFaithful(DecodeAll(text, items).value)
  {
    if items != [] {
      forall i | 0 <= i < |items[1..]| ensures items[1..][i] == items[i + 1] {
      }
      AllDecodedFaithful(text, items[1..]);
    }
  }

  lemma KnownNodeFaithful(text: UuidText, tag: Tag, j: Json)
    requires HasType(j) && TagOf(j.fields["type"].s) == Some(tag)
    requires DecodeAll(text, Children(j)).Ok? ==> AllFaithful(DecodeAll(text, Children(j)).value)
    ensures DecodeAs(text, tag, j).Ok? ==> Faithful(DecodeAs(text, tag, j).value)
  {
    if tag == TNot && "predicate" in j.fields {
      DecodeOne(text, j.fields["predicate"]);
    }
  }

  /** A whole number of bits may be spelled without a fraction. */
  lemma WholeBitsDecode(text: UuidText, f: map<string, Json>, n: int)
    requires "type" in f && f["type"] == Str(TagName(TEntropy)) && "bits" in f && (f["bits"] == Int(n) || f["bits"] == Real(n as real))
    ensures Decode(text, Obj(f)) == Ok(EntropyBelow(n as real))
  {
    TagNamed(TEntropy);
    BitsRead(text, Obj(f), n);
  }

  lemma BitsRead(text: UuidText, j: Json, n: int)
    requires j.Obj? && "bits" in j.fields && (j.fields["bits"] == Int(n) || j.fields["bits"] == Real(n as real))
    ensures DecodeAs(text, TEntropy, j) == Ok(EntropyBelow(n as real))
  {
  }
}
