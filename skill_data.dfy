/**
 * The skill catalogue of js/skill-data.js: eight classes, each with its
 * active and passive skills, the catalogue queries, and `matchSkill`, which
 * runs the matching cascade over one class's skills or over all of them.
 */
module SkillData {
  import opened Wrappers
  import opened Text
  import opened Matching

  /** One entry of the `classes` object: its key and its two skill lists. */
  datatype SkillClass = SkillClass(name: string, active: seq<string>, passive: seq<string>)

  /** The `검성` entry. */
  const Gladiator := SkillClass("검성",
    ["내려찍기", "분쇄 파동", "파멸의 맹타", "절단의 맹타", "도약 찍기",
     "돌진 일격", "예리한 일격", "유린의 검", "발목 베기", "충격 해제",
     "검기 난무", "공중 결박"],
    ["공격 준비", "충격 적중", "약점 파악", "노련한 반격", "살기 파열",
     "생존 자세", "피의 흡수", "생존 의지", "파괴 충동", "보호의 갑옷"])

  /** The `수호성` entry. */
  const Templar := SkillClass("수호성",
    ["연속 난타", "심판", "맹렬한 일격", "징벌", "비호의 일격",
     "방패 강타", "쇠약의 맹타", "포획", "방패 돌격", "섬멸",
     "충격 해제", "섬광 난무"],
    ["격앙", "충격 적중", "철벽 방어", "체력 강화", "단죄의 가호",
     "고통 차단", "생존 의지", "수호의 인장", "모욕의 포효", "비호의 방패"])

  /** The `살성` entry. */
  const Assassin := SkillClass("살성",
    ["심장 찌르기", "빠른 베기", "기습", "문양 폭발", "맹수의 포효",
     "폭풍 난무", "암습", "회오리 베기", "섬광 베기", "침투",
     "충격 해제", "그림자 낙하"],
    ["강습 자세", "배후 강타", "충격 적중", "빈틈 노리기", "육감 극대화",
     "방어 균열", "각오", "회생의 계약", "기습 자세", "독 바르기"])

  /** The `궁성` entry. */
  const Ranger := SkillClass("궁성",
    ["저격", "속사", "조준 화살", "송곳 화살", "광풍 화살",
     "표적 화살", "파열 화살", "제압 화살", "올가미 화살", "폭발의 덫",
     "충격 해제", "화살 난사"],
    ["집중의 눈", "사냥꾼의 결의", "사냥꾼의 혼", "집중 포화", "경계의 눈",
     "속박의 눈", "근접 사격", "회생의 계약", "저항의 결의", "바람의 활력"])

  /** The `마도성` entry. */
  const Sorcerer := SkillClass("마도성",
    ["불꽃 화살", "불꽃 폭발", "혹한의 바람", "집중의 기원", "얼음 사슬",
     "불꽃 작살", "겨울의 속박", "지옥의 화염", "빙결", "빙결 폭발",
     "화염 난사", "충격 해제"],
    ["불꽃의 로브", "불의 표식", "생기 증발", "냉기 소환", "정기 흡수",
     "강화의 은혜", "회생의 계약", "저항의 은혜", "냉기의 로브", "대지의 로브"])

  /** The `정령성` entry. */
  const Spiritmaster := SkillClass("정령성",
    ["화염 전소", "냉기 충격", "원소 융합", "협공: 저주", "소환: 물의 정령",
     "공간 지배", "영혼의 절규", "소환: 바람의 정령", "연속 난사", "소환: 불의 정령",
     "충격 해제", "소환: 땅의 정령"],
    ["정령 타격", "정신 집중", "침식", "정령 강림", "정령 보호",
     "연속 역류", "원소 결집", "회생의 계약", "정령 교감", "정령 회생"])

  /** The `치유성` entry. */
  const Cleric := SkillClass("치유성",
    ["쾌유의 광휘", "심판의 번개", "재생의 빛", "치유의 빛", "단죄",
     "대지의 응보", "고통의 연쇄", "신성한 기운", "벼락 난사", "약화의 낙인",
     "벽력", "충격 해제"],
    ["대지의 은총", "치유력 강화", "불사의 장막", "주신의 은총", "따뜻한 가호",
     "생존 의지", "찬란한 가호", "집중의 기도", "주신의 가호", "회복 차단"])

  /** The `호법성` entry. */
  const Chanter := SkillClass("호법성",
    ["암격쇄", "격파쇄", "백열격", "쾌유의 주문", "회전격",
     "타격쇄", "돌진 격파", "열파격", "파동격", "질풍 난무",
     "진동쇄", "충격 해제"],
    ["공격 준비", "충격 적중", "고취의 주문", "생명의 축복", "대지의 약속",
     "바람의 약속", "생존 의지", "보호진", "격노의 주문", "십자 방어"])

  /** The `classes` object, in key insertion order. */
  const Classes: seq<SkillClass> := [Gladiator, Templar, Assassin, Ranger, Sorcerer, Spiritmaster, Cleric, Chanter]

  /** `c` lists `s` among its active or passive skills. */
  predicate Offers(c: SkillClass, s: string) {
    s in c.active || s in c.passive
  }

  /** Every class's active and then passive skills, class after class. */
  function Flatten(cs: seq<SkillClass>): (r: seq<string>)
    ensures forall s :: s in r <==> exists i :: 0 <= i < |cs| && Offers(cs[i], s)
  {
    if |cs| == 0 then []
    else
      var init := cs[..|cs| - 1];
      var r := Flatten(init) + cs[|cs| - 1].active + cs[|cs| - 1].passive;
      assert forall i :: 0 <= i < |init| ==> init[i] == cs[i];
      r
  }

  /** The elements of `s` in order of first occurrence (what a JavaScript `Set` keeps). */
  function Dedup(s: seq<string>): (r: seq<string>)
    ensures forall x :: x in r <==> x in s
    ensures forall i, j :: 0 <= i < j < |r| ==> r[i] != r[j]
  {
    if |s| == 0 then []
    else
      var d := Dedup(s[..|s| - 1]);
      if s[|s| - 1] in d then d else d + [s[|s| - 1]]
  }

  /** One more element is kept exactly when it has not been seen. */
  lemma DedupSnoc(s: seq<string>, x: string)
    ensures Dedup(s + [x]) == if x in Dedup(s) then Dedup(s) else Dedup(s) + [x]
  {
    assert (s + [x])[..|s|] == s;
  }

  /** What `getAllSkills()` returns. */
  function AllSkills(): seq<string> {
    Dedup(Flatten(Classes))
  }

  /** Adds each of `items` to the set `all` holds, in order (`items.forEach(s => all.add(s))`). */
  method AddEach(ghost seen: seq<string>, all: seq<string>, items: seq<string>) returns (r: seq<string>)
    requires all == Dedup(seen)
    ensures r == Dedup(seen + items)
  {
    r := all;
    assert seen + items[..0] == seen;
    for k := 0 to |items|
      invariant r == Dedup(seen + items[..k])
    {
      assert seen + items[..k + 1] == (seen + items[..k]) + [items[k]];
      DedupSnoc(seen + items[..k], items[k]);
      if items[k] !in r {
        r := r + [items[k]];
      }
    }
    assert items[..|items|] == items;
  }

  /** The loop of `getAllSkills()` over the classes, in order. */
  method CollectSkills(cs: seq<SkillClass>) returns (all: seq<string>)
    ensures all == Dedup(Flatten(cs))
  {
    all := [];
    for ci := 0 to |cs|
      invariant all == Dedup(Flatten(cs[..ci]))
    {
      assert cs[..ci + 1][..ci] == cs[..ci];
      all := AddEach(Flatten(cs[..ci]), all, cs[ci].active);
      all := AddEach(Flatten(cs[..ci]) + cs[ci].active, all, cs[ci].passive);
    }
    assert cs[..|cs|] == cs;
  }

  /** `getAllSkills()`: every skill of every class, each once, in first-seen order. */
  method GetAllSkills() returns (all: seq<string>)
    ensures all == AllSkills()
    ensures forall i, j :: 0 <= i < j < |all| ==> all[i] != all[j]
    ensures forall s :: s in all <==> exists c :: c in Classes && Offers(c, s)
  {
    all := CollectSkills(Classes);
    forall s | s in all
      ensures exists c :: c in Classes && Offers(c, s)
    {
      var i :| 0 <= i < |Classes| && Offers(Classes[i], s);
      assert Classes[i] in Classes;
    }
  }

  /** The first class whose key is `name`, the lookup `classes[name]`. */
  function FindClass(cs: seq<SkillClass>, name: string): (r: Option<SkillClass>)
    ensures r.Some? ==> r.value in cs && r.value.name == name
    ensures r.None? ==> forall c :: c in cs ==> c.name != name
  {
    if |cs| == 0 then None
    else if cs[0].name == name then Some(cs[0])
    else FindClass(cs[1..], name)
  }

  /** What `getSkillsByClass(name)` returns: the class's skills, or every skill for an unknown key. */
  function SkillsOf(name: string): seq<string> {
    match FindClass(Classes, name)
    case Some(c) => c.active + c.passive
    case None => AllSkills()
  }

  /** `getSkillsByClass(className)`. */
  method GetSkillsByClass(name: string) returns (r: seq<string>)
    ensures r == SkillsOf(name)
    ensures forall s :: s in r ==> s in AllSkills()
  {
    var cls := FindClass(Classes, name);
    if cls.None? {
      r := GetAllSkills();
    } else {
      r := cls.value.active + cls.value.passive;
      assert forall s :: s in r ==> Offers(cls.value, s);
    }
  }

  /** `getClassNames()`: the keys of `classes`, in order. */
  function ClassNames(): (r: seq<string>)
    ensures |r| == |Classes|
    ensures forall i :: 0 <= i < |r| ==> r[i] == Classes[i].name
  {
    seq(|Classes|, i requires 0 <= i < |Classes| => Classes[i].name)
  }

  /** A key is listed by `getClassNames()` exactly when the lookup finds a class for it. */
  lemma ClassNamesAreKeys(name: string)
    ensures name in ClassNames() <==> FindClass(Classes, name).Some?
  {
    if name in ClassNames() {
      var i :| 0 <= i < |ClassNames()| && ClassNames()[i] == name;
      assert Classes[i] in Classes;
    }
  }

  /** The candidates `matchSkill` searches: a truthy class name scopes the search. */
  function Scope(className: Option<string>): seq<string> {
    if className.Some? && className.value != "" then SkillsOf(className.value) else AllSkills()
  }

  /** `matchSkill(ocrText, className)`. */
  method MatchSkill(ocrText: string, className: Option<string>) returns (r: Option<string>)
    ensures r == Cascade(ocrText, Scope(className))
    ensures r.Some? ==> r.value in AllSkills()
  {
    var skills: seq<string>;
    if className.Some? && className.value != "" {
      skills := GetSkillsByClass(className.value);
    } else {
      skills := GetAllSkills();
    }
    r := MatchIn(ocrText, skills);
  }
}
