/** The dashboard's record types: the enumerations of a pet's gender, breed,
  neuter status and Seoul district, the `Pet` record, and the column schema
  an insurance-claim frame is validated against. */
module DashboardSchema {
  import opened Wrappers
  import opened Seqs
  import opened Frames

  datatype Gender = Male | Female
  datatype Breed = Jindo | Poodle | Pomeranian | Chihuahua | Shiba | Bichon | Maltese | GoldenRetriever
  datatype Neutralized = Yes | No
  datatype District =
    | Jung | Guro | Jongno | Geumcheon | Nowon | Gwangjin | Dobong | Seongbuk | Gwanak
    | Mapo | Eunpyeong | Yeongdeungpo | Jungnang | Dongdaemun | Dongjak | Yangcheon | Seongdong
    | Gangbuk | Songpa | Seodaemun | Gangdong | Gangseo | Yongsan | Seocho | Gangnam

  /** Each member's `.value`. */
  function GenderValue(g: Gender): string {
    match g
    case Male => "남자"
    case Female => "여자"
  }

  function BreedValue(b: Breed): string {
    match b
    case Jindo => "진돗개"
    case Poodle => "푸들"
    case Pomeranian => "포메라니안"
    case Chihuahua => "치와와"
    case Shiba => "시바견"
    case Bichon => "비숑"
    case Maltese => "말티즈"
    case GoldenRetriever => "골든리트리버"
  }

  function NeutralizedValue(n: Neutralized): string {
    match n
    case Yes => "y"
    case No => "n"
  }

  function DistrictValue(d: District): string {
    match d
    case Jung => "중구"
    case Guro => "구로구"
    case Jongno => "종로구"
    case Geumcheon => "금천구"
    case Nowon => "노원구"
    case Gwangjin => "광진구"
    case Dobong => "도봉구"
    case Seongbuk => "성북구"
    case Gwanak => "관악구"
    case Mapo => "마포구"
    case Eunpyeong => "은평구"
    case Yeongdeungpo => "영등포구"
    case Jungnang => "중랑구"
    case Dongdaemun => "동대문구"
    case Dongjak => "동작구"
    case Yangcheon => "양천구"
    case Seongdong => "성동구"
    case Gangbuk => "강북구"
    case Songpa => "송파구"
    case Seodaemun => "서대문구"
    case Gangdong => "강동구"
    case Gangseo => "강서구"
    case Yongsan => "용산구"
    case Seocho => "서초구"
    case Gangnam => "강남구"
  }

  /** The members in declaration order. */
  const Genders := [Male, Female]
  const Breeds := [Jindo, Poodle, Pomeranian, Chihuahua, Shiba, Bichon, Maltese, GoldenRetriever]
  const NeuterStates := [Yes, No]
  const Districts := [Jung, Guro, Jongno, Geumcheon, Nowon, Gwangjin, Dobong, Seongbuk, Gwanak,
                      Mapo, Eunpyeong, Yeongdeungpo, Jungnang, Dongdaemun, Dongjak, Yangcheon, Seongdong,
                      Gangbuk, Songpa, Seodaemun, Gangdong, Gangseo, Yongsan, Seocho, Gangnam]

  /** `EnumClass(s)`: the first member whose value is `s`. */
  function Lookup<T>(members: seq<T>, value: T -> string, s: string): (r: Option<T>)
    ensures r.Some? ==> r.value in members && value(r.value) == s
    ensures r.None? <==> forall x | x in members :: value(x) != s
  {
    if members == [] then None
    else if value(members[0]) == s then Some(members[0])
    else Lookup(members[1..], value, s)
  }

  /** Distinct members have distinct values. */
  predicate Injective<T(==)>(members: seq<T>, value: T -> string) {
    forall a, b | a in members && b in members && a != b :: value(a) != value(b)
  }

  /** Looking up a member's value finds that member. */
  lemma {:induction false} LookupValue<T>(members: seq<T>, value: T -> string, x: T)
    requires x in members && Injective(members, value)
    ensures Lookup(members, value, value(x)) == Some(x)
    decreases |members|
  {
    if members[0] != x {
      assert members[0] in members;
      assert x in members[1..];
      LookupValue(members[1..], value, x);
    }
  }

  /** Every member is listed and the values tell members apart. */
  lemma EnumsComplete()
    ensures forall g: Gender :: g in Genders
    ensures forall b: Breed :: b in Breeds
    ensures forall n: Neutralized :: n in NeuterStates
    ensures forall d: District :: d in Districts
  {
    forall g: Gender ensures g in Genders {
      match g { case Male => case Female => }
    }
    forall b: Breed ensures b in Breeds {
      match b {
        case Jindo => case Poodle => case Pomeranian => case Chihuahua =>
        case Shiba => case Bichon => case Maltese => case GoldenRetriever =>
      }
    }
    forall n: Neutralized ensures n in NeuterStates {
      match n { case Yes => case No => }
    }
    forall d: District ensures d in Districts {
      match d {
        case Jung => case Guro => case Jongno => case Geumcheon => case Nowon =>
        case Gwangjin => case Dobong => case Seongbuk => case Gwanak => case Mapo =>
        case Eunpyeong => case Yeongdeungpo => case Jungnang => case Dongdaemun => case Dongjak =>
        case Yangcheon => case Seongdong => case Gangbuk => case Songpa => case Seodaemun =>
        case Gangdong => case Gangseo => case Yongsan => case Seocho => case Gangnam =>
      }
    }
  }

  lemma ValuesInjective()
    ensures Injective(Genders, GenderValue) && Injective(Breeds, BreedValue)
    ensures Injective(NeuterStates, NeutralizedValue)
  {
  }

  /** The first two characters of a district's name tell it apart. */
  function DistrictByPrefix(a: char, b: char): Option<District> {
    match (a, b)
    case ('중', '구') => Some(Jung)
    case ('구', '로') => Some(Guro)
    case ('종', '로') => Some(Jongno)
    case ('금', '천') => Some(Geumcheon)
    case ('노', '원') => Some(Nowon)
    case ('광', '진') => Some(Gwangjin)
    case ('도', '봉') => Some(Dobong)
    case ('성', '북') => Some(Seongbuk)
    case ('관', '악') => Some(Gwanak)
    case ('마', '포') => Some(Mapo)
    case ('은', '평') => Some(Eunpyeong)
    case ('영', '등') => Some(Yeongdeungpo)
    case ('중', '랑') => Some(Jungnang)
    case ('동', '대') => Some(Dongdaemun)
    case ('동', '작') => Some(Dongjak)
    case ('양', '천') => Some(Yangcheon)
    case ('성', '동') => Some(Seongdong)
    case ('강', '북') => Some(Gangbuk)
    case ('송', '파') => Some(Songpa)
    case ('서', '대') => Some(Seodaemun)
    case ('강', '동') => Some(Gangdong)
    case ('강', '서') => Some(Gangseo)
    case ('용', '산') => Some(Yongsan)
    case ('서', '초') => Some(Seocho)
    case ('강', '남') => Some(Gangnam)
    case _ => None
  }

  lemma DistrictPrefix(d: District)
    ensures |DistrictValue(d)| >= 2
    ensures DistrictByPrefix(DistrictValue(d)[0], DistrictValue(d)[1]) == Some(d)
  {
  }

  lemma DistrictValuesInjective()
    ensures Injective(Districts, DistrictValue)
  {
    forall a, b | a in Districts && b in Districts && a != b ensures DistrictValue(a) != DistrictValue(b) {
      DistrictPrefix(a);
      DistrictPrefix(b);
    }
  }

  /** Value and member determine each other, for every enumeration. */
  lemma EnumRoundTrips(g: Gender, b: Breed, n: Neutralized)
    ensures Lookup(Genders, GenderValue, GenderValue(g)) == Some(g)
    ensures Lookup(Breeds, BreedValue, BreedValue(b)) == Some(b)
    ensures Lookup(NeuterStates, NeutralizedValue, NeutralizedValue(n)) == Some(n)
  {
    EnumsComplete();
    ValuesInjective();
    LookupValue(Genders, GenderValue, g);
    LookupValue(Breeds, BreedValue, b);
    LookupValue(NeuterStates, NeutralizedValue, n);
  }

  lemma DistrictRoundTrip(d: District)
    ensures Lookup(Districts, DistrictValue, DistrictValue(d)) == Some(d)
  {
    EnumsComplete();
    DistrictValuesInjective();
    LookupValue(Districts, DistrictValue, d);
  }

  datatype Pet = Pet(gender: Gender, breed: Breed, neutralized: Neutralized, district: District,
                     age: int, weight: real, price: int)

  /** Over a list that holds every member, the lookup succeeds exactly when
      some member has the value. */
  lemma LookupTotal<T>(members: seq<T>, value: T -> string, s: string)
    requires forall x: T :: x in members
    ensures Lookup(members, value, s).Some? <==> exists x: T :: value(x) == s
  {
    if exists x: T :: value(x) == s {
      var x: T :| value(x) == s;
      assert x in members;
    }
  }

  /** The enumeration member with value `s`, if any. */
  function ParseGender(s: string): (r: Option<Gender>)
    ensures r.Some? <==> exists g: Gender :: GenderValue(g) == s
    ensures r.Some? ==> GenderValue(r.value) == s
  {
    EnumsComplete();
    LookupTotal(Genders, GenderValue, s);
    Lookup(Genders, GenderValue, s)
  }

  function ParseBreed(s: string): (r: Option<Breed>)
    ensures r.Some? <==> exists b: Breed :: BreedValue(b) == s
    ensures r.Some? ==> BreedValue(r.value) == s
  {
    EnumsComplete();
    LookupTotal(Breeds, BreedValue, s);
    Lookup(Breeds, BreedValue, s)
  }

  function ParseNeutralized(s: string): (r: Option<Neutralized>)
    ensures r.Some? <==> exists n: Neutralized :: NeutralizedValue(n) == s
    ensures r.Some? ==> NeutralizedValue(r.value) == s
  {
    EnumsComplete();
    LookupTotal(NeuterStates, NeutralizedValue, s);
    Lookup(NeuterStates, NeutralizedValue, s)
  }

  function ParseDistrict(s: string): (r: Option<District>)
    ensures r.Some? <==> exists d: District :: DistrictValue(d) == s
    ensures r.Some? ==> DistrictValue(r.value) == s
  {
    EnumsComplete();
    LookupTotal(Districts, DistrictValue, s);
    Lookup(Districts, DistrictValue, s)
  }

  /** `Pet(...)` from the enumerations' values: `ValidationError` when one
      is not a member's value. */
  function NewPet(gender: string, breed: string, neutralized: string, district: string,
                  age: int, weight: real, price: int): (r: Result<Pet>)
    ensures r.Ok? <==> ((exists g: Gender :: GenderValue(g) == gender) && (exists b: Breed :: BreedValue(b) == breed)
      && (exists n: Neutralized :: NeutralizedValue(n) == neutralized) && (exists d: District :: DistrictValue(d) == district))
    ensures r.Ok? ==> (GenderValue(r.value.gender) == gender && BreedValue(r.value.breed) == breed
      && NeutralizedValue(r.value.neutralized) == neutralized && DistrictValue(r.value.district) == district)
    ensures r.Ok? ==> r.value.age == age && r.value.weight == weight && r.value.price == price
  {
    var g := ParseGender(gender);
    var b := ParseBreed(breed);
    var n := ParseNeutralized(neutralized);
    var d := ParseDistrict(district);
    if g.None? || b.None? || n.None? || d.None? then
      Raise(Exc("ValidationError", "value is not a valid enumeration member"))
    else
      Ok(Pet(g.value, b.value, n.value, d.value, age, weight, price))
  }

  // ------------------------------------------------------------ frame schema

  predicate Integral(x: real) {
    x == x.Floor as real
  }

  /** The per-cell check of each schema column. */
  predicate CellOk(col: string, v: Value) {
    match col
    case "gender" => v.Str? && (v.s == "남자" || v.s == "여자")
    case "breed" => v.Str?
    case "neutralized" => v.Str? && (v.s == "y" || v.s == "n")
    case "district" => v.Str?
    case "age" => v.Num? && Integral(v.x) && v.x >= 0.0
    case "weight" => v.Num? && v.x > 0.0
    case "price" => v.Num? && Integral(v.x) && v.x > 0.0
    case _ => true
  }

  const SchemaColumns := ["gender", "breed", "neutralized", "district", "age", "weight", "price"]

  predicate ColumnOk(f: Frame, col: string) {
    col in f.columns && forall i | 0 <= i < |f.rows| :: CellOk(col, Cell(f.rows[i], col))
  }

  function CheckColumns(f: Frame, cols: seq<string>): (r: Result<Frame>)
    ensures r.Ok? <==> forall c | c in cols :: ColumnOk(f, c)
    ensures r.Ok? ==> r.value == f
    ensures r.Raise? ==> r.exc.kind == "SchemaError"
  {
    if cols == [] then Ok(f)
    else if !ColumnOk(f, cols[0]) then Raise(Exc("SchemaError", cols[0]))
    else CheckColumns(f, cols[1..])
  }

  /** `insurance_schema.validate(df)`: every schema column is present and
      each of its cells passes the column's check; the frame comes back
      unchanged. */
  function Validate(f: Frame): (r: Result<Frame>)
    ensures r.Ok? <==> forall c | c in SchemaColumns :: ColumnOk(f, c)
    ensures r.Ok? ==> r.value == f
  {
    CheckColumns(f, SchemaColumns)
  }

  /** The record of a pet as a frame row. */
  function PetRow(p: Pet): Row {
    map["gender" := Str(GenderValue(p.gender)), "breed" := Str(BreedValue(p.breed)),
        "neutralized" := Str(NeutralizedValue(p.neutralized)), "district" := Str(DistrictValue(p.district)),
        "age" := Num(p.age as real), "weight" := Num(p.weight), "price" := Num(p.price as real)]
  }

  function PetFrame(pets: seq<Pet>): Frame {
    Frame(SchemaColumns, MapSeq(pets, PetRow))
  }

  predicate Plausible(p: Pet) {
    p.age >= 0 && p.weight > 0.0 && p.price > 0
  }

  /** The cells of a pet's row pass the schema's checks, up to the bounds. */
  lemma PetRowCells(p: Pet)
    ensures CellOk("gender", Cell(PetRow(p), "gender")) && CellOk("neutralized", Cell(PetRow(p), "neutralized"))
    ensures CellOk("breed", Cell(PetRow(p), "breed")) && CellOk("district", Cell(PetRow(p), "district"))
    ensures CellOk("age", Cell(PetRow(p), "age")) <==> p.age >= 0
    ensures CellOk("weight", Cell(PetRow(p), "weight")) <==> p.weight > 0.0
    ensures CellOk("price", Cell(PetRow(p), "price")) <==> p.price > 0
  {
    assert (p.age as real).Floor == p.age;
    assert (p.price as real).Floor == p.price;
  }

  /** The record type and the frame schema agree on the enumerations; the
      schema adds exactly the bounds on age, weight and price. */
  lemma PetFrameValid(pets: seq<Pet>)
    ensures Validate(PetFrame(pets)).Ok? <==> forall i | 0 <= i < |pets| :: Plausible(pets[i])
  {
    var f := PetFrame(pets);
    forall i | 0 <= i < |pets|
      ensures f.rows[i] == PetRow(pets[i])
    {
      PetRowCells(pets[i]);
    }
    if forall i | 0 <= i < |pets| :: Plausible(pets[i]) {
      forall c | c in SchemaColumns ensures ColumnOk(f, c) {
        forall i | 0 <= i < |pets| ensures CellOk(c, Cell(f.rows[i], c)) {
          PetRowCells(pets[i]);
        }
      }
    } else {
      var i :| 0 <= i < |pets| && !Plausible(pets[i]);
      PetRowCells(pets[i]);
      if pets[i].age < 0 {
        assert !ColumnOk(f, "age");
      } else if pets[i].weight <= 0.0 {
        assert !ColumnOk(f, "weight");
      } else {
        assert !ColumnOk(f, "price");
      }
    }
  }
}
