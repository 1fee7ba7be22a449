/** The struct/hash codec of common/redis.go: `RedisHSetObj` writes every field of a
    struct as text into a Redis hash, `RedisHGetObj` reads them back into a zero
    struct.  A struct is a list of named fields; Redis itself stores the hash
    faithfully. */
module RedisHash {
  import opened Basics

  datatype Kind = StringKind | IntKind | BoolKind | StructKind(zeroText: string) | OtherKind

  /** A value that is not a pointer.  `Num` is an int or int64.  `Struct` is a struct
      other than gorm's soft-delete mark, by what it prints as; without `content` it is
      the zero value of its type, which prints as `zeroText`.  `Other` is of a type the
      decoder does not know (a float, say), by the text it prints as. */
  datatype Scalar =
    | Text(text: string)
    | Num(n: int)
    | Bool(b: bool)
    | Struct(zeroText: string, content: Option<string>)
    | Other(printed: string)

  /** A field's value together with its type.  `DeletedAt` is gorm's soft-delete
      mark, valid or not. */
  datatype Value =
    | Plain(scalar: Scalar)
    | Nil(kind: Kind)
    | Pointer(target: Scalar)
    | DeletedAt(time: Option<string>)

  datatype Field = Field(name: string, value: Value)

  type Record = seq<Field>

  datatype Error = NotFound | BadInt(field: string) | BadBool(field: string) | BadTime(field: string) | Unsupported(field: string)

  datatype Result<T> = Ok(value: T) | Err(error: Error)

  // ---------------------------------------------------------------------
  // Numbers and booleans as text
  // ---------------------------------------------------------------------

  function Digit(d: int): char
    requires 0 <= d < 10
  {
    ('0' as int + d) as char
  }

  function FormatNat(n: nat): (r: string)
    ensures r != [] && '0' <= r[0] <= '9'
  {
    if n < 10 then [Digit(n)] else FormatNat(n / 10) + [Digit(n % 10)]
  }

  function FormatInt(n: int): (r: string)
    ensures r != []
  {
    if n < 0 then "-" + FormatNat(-n) else FormatNat(n)
  }

  /** A string of decimal digits; the empty one counts as 0 here. */
  function ParseDigits(s: string): Option<nat> {
    if s == [] then Some(0)
    else
      var rest, c := ParseDigits(s[..|s| - 1]), s[|s| - 1];
      if rest.Some? && '0' <= c <= '9' then Some(10 * rest.value + (c as int - '0' as int)) else None
  }

  /** `strconv.ParseInt(s, 10, 64)`: an optional sign, at least one digit, in range. */
  function ParseInt(s: string): Option<int> {
    if s == [] then None
    else
      var negative := s[0] == '-';
      var digits := if s[0] == '-' || s[0] == '+' then s[1..] else s;
      var magnitude := ParseDigits(digits);
      if digits == [] || magnitude.None? then None
      else
        var m: int := magnitude.value;
        var n := if negative then -m else m;
        if INT64_MIN <= n <= INT64_MAX then Some(n) else None
  }

  lemma {:induction false} DigitsRoundTrip(n: nat)
    ensures ParseDigits(FormatNat(n)) == Some(n)
  {
    var s := FormatNat(n);
    if n < 10 {
      assert s[..|s| - 1] == [];
    } else {
      assert s[..|s| - 1] == FormatNat(n / 10);
      DigitsRoundTrip(n / 10);
    }
  }

  function Power10(k: nat): (r: nat)
    ensures r > 0
  {
    if k == 0 then 1 else 10 * Power10(k - 1)
  }

  /** Decimal notation without a leading zero. */
  ghost predicate IsDecimal(text: string, n: nat) {
    && |text| >= 1 && n < Power10(|text|)
    && (|text| > 1 ==> n >= Power10(|text| - 1))
    && forall k :: 0 <= k < |text| ==> text[|text| - 1 - k] == "0123456789"[DigitOf(n, k)]
  }

  /** Digit k from the right. */
  function DigitOf(n: nat, k: nat): (r: nat)
    ensures r < 10
  {
    if k == 0 then n % 10 else DigitOf(n / 10, k - 1)
  }

  lemma {:induction false} FormatIsDecimal(n: nat)
    ensures IsDecimal(FormatNat(n), n)
  {
    var text := FormatNat(n);
    assert DigitOf(n, 0) == n % 10;
    if n >= 10 {
      var front := FormatNat(n / 10);
      FormatIsDecimal(n / 10);
      forall k | 0 <= k < |text| ensures text[|text| - 1 - k] == "0123456789"[DigitOf(n, k)] {
        if k > 0 {
          assert text[|text| - 1 - k] == front[|front| - 1 - (k - 1)];
        }
      }
    }
  }

  /** Every int64 survives the trip through decimal text; no other integer does. */
  lemma IntRoundTrip(n: int)
    ensures ParseInt(FormatInt(n)) == if INT64_MIN <= n <= INT64_MAX then Some(n) else None
  {
    if n < 0 {
      assert FormatInt(n)[1..] == FormatNat(-n);
      DigitsRoundTrip(-n);
    } else {
      DigitsRoundTrip(n);
    }
  }

  function FormatBool(b: bool): string {
    if b then "true" else "false"
  }

  /** `strconv.ParseBool`. */
  function ParseBool(s: string): Option<bool> {
    if s in ["1", "t", "T", "true", "TRUE", "True"] then Some(true)
    else if s in ["0", "f", "F", "false", "FALSE", "False"] then Some(false)
    else None
  }

  // ---------------------------------------------------------------------
  // One field
  // ---------------------------------------------------------------------

  function Print(s: Scalar): string {
    match s
    case Text(text) => text
    case Num(n) => FormatInt(n)
    case Bool(b) => FormatBool(b)
    case Struct(zeroText, content) => if content.Some? then content.value else zeroText
    case Other(printed) => printed
  }

  function EncodeValue(v: Value): string
    requires !v.DeletedAt?
  {
    match v
    case Plain(s) => Print(s)
    case Nil(_) => ""
    case Pointer(s) => Print(s)
  }

  function KindOf(s: Scalar): Kind {
    match s
    case Text(_) => StringKind
    case Num(_) => IntKind
    case Bool(_) => BoolKind
    case Struct(zeroText, _) => StructKind(zeroText)
    case Other(_) => OtherKind
  }

  function ZeroOf(kind: Kind): Scalar {
    match kind
    case StringKind => Text("")
    case IntKind => Num(0)
    case BoolKind => Bool(false)
    case StructKind(zeroText) => Struct(zeroText, None)
    case OtherKind => Other("")
  }

  /** The zero value of a value's type. */
  function Zero(v: Value): Value {
    match v
    case Plain(s) => Plain(ZeroOf(KindOf(s)))
    case Nil(k) => Nil(k)
    case Pointer(s) => Nil(KindOf(s))
    case DeletedAt(_) => DeletedAt(None)
  }

  /** Set a scalar from text; a struct is left as it is. */
  function ParseInto(current: Scalar, text: string, name: string): Result<Scalar> {
    match current
    case Text(_) => Ok(Text(text))
    case Num(_) => if ParseInt(text).Some? then Ok(Num(ParseInt(text).value)) else Err(BadInt(name))
    case Bool(_) => if ParseBool(text).Some? then Ok(Bool(ParseBool(text).value)) else Err(BadBool(name))
    case Struct(_, _) => Ok(current)
    case Other(_) => Err(Unsupported(name))
  }

  /** Set a field from text.  A pointer stays as it is for the empty string and is
      allocated otherwise. */
  function DecodeValue(v: Value, text: string, name: string, parseTime: string -> Option<string>): Result<Value> {
    match v
    case Plain(s) =>
      var r := ParseInto(s, text, name);
      if r.Ok? then Ok(Plain(r.value)) else Err(r.error)
    case DeletedAt(_) =>
      if text == "" then Ok(v)
      else if parseTime(text).Some? then Ok(DeletedAt(parseTime(text)))
      else Err(BadTime(name))
    case Nil(kind) => if text == "" then Ok(v) else DecodeTarget(ZeroOf(kind), text, name)
    case Pointer(s) => if text == "" then Ok(v) else DecodeTarget(s, text, name)
  }

  function DecodeTarget(target: Scalar, text: string, name: string): Result<Value> {
    var r := ParseInto(target, text, name);
    if r.Ok? then Ok(Pointer(r.value)) else Err(r.error)
  }

  // ---------------------------------------------------------------------
  // Records
  // ---------------------------------------------------------------------

  function EncodeFields(record: Record): map<string, string> {
    if record == [] then map[]
    else
      var data, last := EncodeFields(record[..|record| - 1]), record[|record| - 1];
      if last.value.DeletedAt? then data else data[last.name := EncodeValue(last.value)]
  }

  function ZeroRecord(record: Record): (r: Record)
    ensures |r| == |record|
    ensures forall i :: 0 <= i < |r| ==> r[i] == Field(record[i].name, Zero(record[i].value))
  {
    if record == [] then []
    else ZeroRecord(record[..|record| - 1]) +
         [Field(record[|record| - 1].name, Zero(record[|record| - 1].value))]
  }

  function DecodeField(hash: map<string, string>, f: Field, parseTime: string -> Option<string>): Result<Field> {
    if f.name !in hash then Ok(f)
    else
      var r := DecodeValue(f.value, hash[f.name], f.name, parseTime);
      if r.Ok? then Ok(Field(f.name, r.value)) else Err(r.error)
  }

  function DecodeFields(hash: map<string, string>, shape: Record, parseTime: string -> Option<string>): (r: Result<Record>)
    ensures r.Ok? ==> |r.value| == |shape|
  {
    if shape == [] then Ok([])
    else
      var front := DecodeFields(hash, shape[..|shape| - 1], parseTime);
      if front.Err? then front
      else
        var last := DecodeField(hash, shape[|shape| - 1], parseTime);
        if last.Err? then Err(last.error) else Ok(front.value + [last.value])
  }

  /** What `RedisHGetObj` returns for a hash. */
  function Load(hash: map<string, string>, obj: Record, parseTime: string -> Option<string>): Result<Record> {
    if hash == map[] then Err(NotFound) else DecodeFields(hash, obj, parseTime)
  }

  /** The field loop of `RedisHSetObj`. */
  method HSetObj(record: Record) returns (data: map<string, string>)
    ensures data == EncodeFields(record)
  {
    data := map[];
    for i := 0 to |record|
      invariant data == EncodeFields(record[..i])
    {
      assert record[..i + 1][..i] == record[..i];
      var name, value := record[i].name, record[i].value;
      if value.DeletedAt? {
        continue;
      }
      var scalar: Scalar;
      match value {
        case Nil(_) =>
          data := data[name := ""];
          continue;
        case Pointer(target) => scalar := target;
        case Plain(s) => scalar := s;
      }
      if scalar.Bool? {
        data := data[name := FormatBool(scalar.b)];
        continue;
      }
      data := data[name := Print(scalar)];
    }
    assert record[..|record|] == record;
  }

  /** The field loop of `RedisHGetObj`, which sets the fields of `obj` one by one. */
  method HGetObj(hash: map<string, string>, obj: Record, parseTime: string -> Option<string>)
    returns (r: Result<Record>)
    ensures r == Load(hash, obj, parseTime)
  {
    if |hash| == 0 {
      return Err(NotFound);
    }
    var fields := obj;
    for i := 0 to |obj|
      invariant |fields| == |obj| && forall k :: i <= k < |obj| ==> fields[k] == obj[k]
      invariant DecodeFields(hash, obj[..i], parseTime) == Ok(fields[..i])
    {
      ghost var done := fields[..i];
      DecodeOneMore(hash, obj, i, done, parseTime);
      if fields[i].name in hash {
        var v := DecodeValue(fields[i].value, hash[fields[i].name], fields[i].name, parseTime);
        if v.Err? {
          StopsAtFirstError(hash, obj, i + 1, parseTime);
          return Err(v.error);
        }
        fields := fields[i := Field(fields[i].name, v.value)];
      }
      assert fields[..i + 1] == done + [fields[i]];
    }
    assert obj[..|obj|] == obj && fields[..|obj|] == fields;
    r := Ok(fields);
  }

  lemma DecodeOneMore(hash: map<string, string>, obj: Record, i: nat, done: Record, parseTime: string -> Option<string>)
    requires i < |obj| && DecodeFields(hash, obj[..i], parseTime) == Ok(done)
    ensures var f := DecodeField(hash, obj[i], parseTime);
            DecodeFields(hash, obj[..i + 1], parseTime) == if f.Ok? then Ok(done + [f.value]) else Err(f.error)
  {
    assert obj[..i + 1][..i] == obj[..i];
  }

  lemma {:induction false} StopsAtFirstError(hash: map<string, string>, shape: Record, n: nat, parseTime: string -> Option<string>)
    requires n <= |shape| && DecodeFields(hash, shape[..n], parseTime).Err?
    ensures DecodeFields(hash, shape, parseTime) == DecodeFields(hash, shape[..n], parseTime)
    decreases |shape|
  {
    if n == |shape| {
      assert shape[..n] == shape;
    } else {
      var front := shape[..|shape| - 1];
      assert front[..n] == shape[..n];
      StopsAtFirstError(hash, front, n, parseTime);
    }
  }

  // ---------------------------------------------------------------------
  // The round trip
  // ---------------------------------------------------------------------

  /** Distinct field names, and integers that fit their type. */
  ghost predicate WellFormed(record: Record) {
    && (forall i, j :: 0 <= i < j < |record| ==> record[i].name != record[j].name)
    && (forall i :: 0 <= i < |record| ==> InRange(record[i].value))
  }

  predicate InRange(v: Value) {
    match v
    case Plain(Num(n)) => INT64_MIN <= n <= INT64_MAX
    case Pointer(Num(n)) => INT64_MIN <= n <= INT64_MAX
    case _ => true
  }

  /** The values that survive: no pointer to what prints as nothing (it reads back as
      nil), no set soft-delete mark (it is not written), no struct but the zero one (it is
      read back as zero, without an error), no type the decoder rejects. */
  predicate Survives(v: Value) {
    match v
    case Plain(s) => ScalarSurvives(s)
    case Nil(_) => true
    case Pointer(s) => ScalarSurvives(s) && Print(s) != ""
    case DeletedAt(t) => t.None?
  }

  predicate ScalarSurvives(s: Scalar) {
    !s.Other? && (s.Struct? ==> s.content.None?)
  }

  /** A struct that does not survive is lost silently. */
  lemma StructsLostSilently(zeroText: string, text: string, name: string, parseTime: string -> Option<string>)
    ensures var v := Plain(Struct(zeroText, Some(text)));
            DecodeValue(Zero(v), EncodeValue(v), name, parseTime) == Ok(Plain(Struct(zeroText, None)))
    ensures var v := Pointer(Struct(zeroText, Some(text)));
            text != "" ==> DecodeValue(Zero(v), EncodeValue(v), name, parseTime) == Ok(Pointer(Struct(zeroText, None)))
  {
  }

  lemma ValueRoundTrip(v: Value, name: string, parseTime: string -> Option<string>)
    requires InRange(v) && !v.DeletedAt?
    ensures DecodeValue(Zero(v), EncodeValue(v), name, parseTime) == Ok(v) <==> Survives(v)
  {
    match v
    case Plain(Num(n)) => IntRoundTrip(n);
    case Pointer(Num(n)) => IntRoundTrip(n);
    case _ =>
  }

  lemma {:induction false} EncodedLookup(record: Record, i: nat)
    requires WellFormed(record) && i < |record|
    ensures record[i].value.DeletedAt? ==> record[i].name !in EncodeFields(record)
    ensures !record[i].value.DeletedAt? ==>
              record[i].name in EncodeFields(record) &&
              EncodeFields(record)[record[i].name] == EncodeValue(record[i].value)
  {
    var front, last := record[..|record| - 1], |record| - 1;
    if i < last {
      EncodedLookup(front, i);
    } else if record[i].value.DeletedAt? {
      EncodedNames(front, record[i].name);
    }
  }

  /** What is stored of a field: a bool as "true" or "false", a number in decimal notation
      with a minus sign when it is negative, a string as it is, a nil pointer as the empty
      string, a pointer as what it points to, and a soft-delete mark not at all. */
  lemma StoredTexts(record: Record, i: nat)
    requires WellFormed(record) && i < |record|
    ensures var hash, name := EncodeFields(record), record[i].name;
            match record[i].value
            case DeletedAt(_) => name !in hash
            case Nil(_) => name in hash && hash[name] == ""
            case Plain(s) => name in hash && IsTextOf(hash[name], s)
            case Pointer(s) => name in hash && IsTextOf(hash[name], s)
  {
    EncodedLookup(record, i);
    match record[i].value
    case Plain(s) => PrintIsText(s);
    case Pointer(s) => PrintIsText(s);
    case _ =>
  }

  ghost predicate IsTextOf(text: string, s: Scalar) {
    match s
    case Text(t) => text == t
    case Num(n) => if n >= 0 then IsDecimal(text, n) else |text| > 1 && text[0] == '-' && IsDecimal(text[1..], -n)
    case Bool(b) => text == if b then "true" else "false"
    case Struct(zeroText, content) => text == if content == None then zeroText else content.value
    case Other(printed) => text == printed
  }

  lemma PrintIsText(s: Scalar)
    ensures IsTextOf(Print(s), s)
  {
    if s.Num? {
      FormatIsDecimal(if s.n < 0 then -s.n else s.n);
      assert s.n < 0 ==> FormatInt(s.n)[1..] == FormatNat(-s.n);
    }
  }

  lemma {:induction false} EncodedNames(record: Record, name: string)
    requires forall i :: 0 <= i < |record| ==> record[i].name != name
    ensures name !in EncodeFields(record)
  {
    if record != [] {
      EncodedNames(record[..|record| - 1], name);
    }
  }

  /** Field `i` of a record comes back from the record's hash exactly when it survives. */
  lemma FieldRoundTrip(record: Record, i: nat, parseTime: string -> Option<string>)
    requires WellFormed(record) && i < |record|
    ensures DecodeField(EncodeFields(record), Field(record[i].name, Zero(record[i].value)), parseTime) == Ok(record[i])
            <==> Survives(record[i].value)
  {
    EncodedLookup(record, i);
    if !record[i].value.DeletedAt? {
      ValueRoundTrip(record[i].value, record[i].name, parseTime);
    }
  }

  lemma {:induction false} PrefixRoundTrip(record: Record, n: nat, parseTime: string -> Option<string>)
    requires WellFormed(record) && n <= |record|
    ensures DecodeFields(EncodeFields(record), ZeroRecord(record)[..n], parseTime) == Ok(record[..n])
            <==> AllSurvive(record[..n])
  {
    if n > 0 {
      PrefixRoundTrip(record, n - 1, parseTime);
      FieldRoundTrip(record, n - 1, parseTime);
      var hash, zero, want := EncodeFields(record), ZeroRecord(record)[..n], record[..n];
      assert zero[..n - 1] == ZeroRecord(record)[..n - 1] && want[..n - 1] == record[..n - 1];
      assert zero[n - 1] == Field(record[n - 1].name, Zero(record[n - 1].value)) && want[n - 1] == record[n - 1];
      OneMoreField(hash, zero, want, parseTime);
      assert AllSurvive(want) <==> AllSurvive(want[..n - 1]) && Survives(want[n - 1].value);
    }
  }

  ghost predicate AllSurvive(record: Record) {
    forall i :: 0 <= i < |record| ==> Survives(record[i].value)
  }

  lemma FieldsRoundTrip(record: Record, parseTime: string -> Option<string>)
    requires WellFormed(record)
    ensures DecodeFields(EncodeFields(record), ZeroRecord(record), parseTime) == Ok(record) <==> AllSurvive(record)
  {
    PrefixRoundTrip(record, |record|, parseTime);
    assert ZeroRecord(record)[..|record|] == ZeroRecord(record);
    assert record[..|record|] == record;
  }

  /** A record decodes to a given one when its front does and its last field does. */
  lemma OneMoreField(hash: map<string, string>, shape: Record, want: Record, parseTime: string -> Option<string>)
    requires |shape| == |want| > 0
    ensures var n := |shape| - 1;
            DecodeFields(hash, shape, parseTime) == Ok(want) <==>
              DecodeFields(hash, shape[..n], parseTime) == Ok(want[..n]) && DecodeField(hash, shape[n], parseTime) == Ok(want[n])
  {
    var n := |shape| - 1;
    var front, last := DecodeFields(hash, shape[..n], parseTime), DecodeField(hash, shape[n], parseTime);
    assert want == want[..n] + [want[n]];
    if front.Ok? && last.Ok? {
      assert (front.value + [last.value])[..n] == front.value;
      assert (front.value + [last.value])[n] == last.value;
    }
  }

  /** Something is written to the hash. */
  ghost predicate Stores(record: Record) {
    exists i :: 0 <= i < |record| && !record[i].value.DeletedAt?
  }

  lemma {:induction false} EmptyHash(record: Record)
    ensures EncodeFields(record) == map[] <==> !Stores(record)
  {
    if record != [] {
      var front, last := record[..|record| - 1], record[|record| - 1];
      EmptyHash(front);
      if last.value.DeletedAt? {
        if Stores(record) {
          var i :| 0 <= i < |record| && !record[i].value.DeletedAt?;
          assert !front[i].value.DeletedAt?;
        }
        if Stores(front) {
          var i :| 0 <= i < |front| && !front[i].value.DeletedAt?;
          assert !record[i].value.DeletedAt?;
        }
      } else {
        assert last.name in EncodeFields(record);
        assert !record[|record| - 1].value.DeletedAt?;
      }
    }
  }

  /** A record comes back unchanged if and only if it stores something and all its
      values survive. */
  lemma RoundTrip(record: Record, parseTime: string -> Option<string>)
    requires WellFormed(record)
    ensures Load(EncodeFields(record), ZeroRecord(record), parseTime) == Ok(record)
            <==> Stores(record) && AllSurvive(record)
  {
    EmptyHash(record);
    FieldsRoundTrip(record, parseTime);
  }

  // ---------------------------------------------------------------------
  // Loading any hash
  // ---------------------------------------------------------------------

  function KindOfValue(v: Value): Kind
    requires !v.DeletedAt?
  {
    match v
    case Plain(s) => KindOf(s)
    case Nil(k) => k
    case Pointer(s) => KindOf(s)
  }

  predicate TextFits(kind: Kind, text: string) {
    match kind
    case StringKind => true
    case IntKind => ParseInt(text).Some?
    case BoolKind => text in ["1", "t", "T", "true", "TRUE", "True", "0", "f", "F", "false", "FALSE", "False"]
    case StructKind(_) => true
    case OtherKind => false
  }

  /** The field is absent from the hash, or its text fits; a pointer and a soft-delete mark
      also take the empty text. */
  predicate Fits(hash: map<string, string>, f: Field, parseTime: string -> Option<string>) {
    f.name in hash ==>
      var text := hash[f.name];
      match f.value
      case DeletedAt(_) => text == "" || parseTime(text).Some?
      case Plain(s) => TextFits(KindOf(s), text)
      case _ => text == "" || TextFits(KindOfValue(f.value), text)
  }

  /** The error for a text that does not fit: it names the field and the type. */
  function Complaint(f: Field): Error {
    if f.value.DeletedAt? then BadTime(f.name)
    else match KindOfValue(f.value)
      case IntKind => BadInt(f.name)
      case BoolKind => BadBool(f.name)
      case _ => Unsupported(f.name)
  }

  lemma FieldExact(hash: map<string, string>, f: Field, parseTime: string -> Option<string>)
    ensures var r := DecodeField(hash, f, parseTime);
            && (r.Ok? <==> Fits(hash, f, parseTime))
            && (r.Err? ==> r.error == Complaint(f))
            && (r.Ok? ==> r.value.name == f.name && (f.name !in hash ==> r.value == f))
  {
  }

  ghost predicate AllFit(hash: map<string, string>, obj: Record, parseTime: string -> Option<string>) {
    forall i :: 0 <= i < |obj| ==> Fits(hash, obj[i], parseTime)
  }

  lemma {:induction false} FieldsExact(hash: map<string, string>, obj: Record, parseTime: string -> Option<string>)
    ensures var r := DecodeFields(hash, obj, parseTime);
            && (r.Ok? <==> AllFit(hash, obj, parseTime))
            && (r.Ok? ==> forall i :: 0 <= i < |obj| && obj[i].name !in hash ==> r.value[i] == obj[i])
  {
    if obj != [] {
      var front, last := obj[..|obj| - 1], obj[|obj| - 1];
      FieldsExact(hash, front, parseTime);
      FieldExact(hash, last, parseTime);
      assert AllFit(hash, obj, parseTime) <==> AllFit(hash, front, parseTime) && Fits(hash, last, parseTime);
    }
  }

  lemma FirstMisfitReported(hash: map<string, string>, obj: Record, n: nat, parseTime: string -> Option<string>)
    requires n < |obj| && AllFit(hash, obj[..n], parseTime) && !Fits(hash, obj[n], parseTime)
    ensures DecodeFields(hash, obj, parseTime) == Err(Complaint(obj[n]))
  {
    FieldsExact(hash, obj[..n], parseTime);
    FieldExact(hash, obj[n], parseTime);
    assert obj[..n + 1][..n] == obj[..n];
    StopsAtFirstError(hash, obj, n + 1, parseTime);
  }

  /** Loading any hash into any record: an empty hash is not found; otherwise it succeeds
      exactly when every field present in the hash fits, and keeps the absent ones; when it
      fails the error is that of the first field that does not fit. */
  lemma LoadExact(hash: map<string, string>, obj: Record, parseTime: string -> Option<string>)
    ensures var r := Load(hash, obj, parseTime);
            && (r.Ok? <==> hash != map[] && AllFit(hash, obj, parseTime))
            && (r.Ok? ==> |r.value| == |obj| && forall i :: 0 <= i < |obj| && obj[i].name !in hash ==> r.value[i] == obj[i])
            && (hash == map[] ==> r == Err(NotFound))
            && (r.Err? && hash != map[] ==>
                  exists n :: 0 <= n < |obj| && AllFit(hash, obj[..n], parseTime) && !Fits(hash, obj[n], parseTime) && r.error == Complaint(obj[n]))
  {
    FieldsExact(hash, obj, parseTime);
    if hash != map[] && !AllFit(hash, obj, parseTime) {
      var n := Misfit(hash, obj, parseTime);
      FirstMisfitReported(hash, obj, n, parseTime);
    }
  }

  lemma {:induction false} Misfit(hash: map<string, string>, obj: Record, parseTime: string -> Option<string>) returns (n: nat)
    requires !AllFit(hash, obj, parseTime)
    ensures n < |obj| && AllFit(hash, obj[..n], parseTime) && !Fits(hash, obj[n], parseTime)
  {
    var front := obj[..|obj| - 1];
    if AllFit(hash, front, parseTime) {
      n := |front|;
    } else {
      n := Misfit(hash, front, parseTime);
      assert front[..n] == obj[..n];
    }
  }
}
