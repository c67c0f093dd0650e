/** The property's fact sheet (`minpakuConfig`) and `getMinpakuConfig`, which lets
    six of its fields be overridden by environment variables. The process
    environment is a parameter: a map from variable names to values, an unset
    variable being absent from the map. */
module MinpakuConfig {

  datatype Access = Access(naviSetting: string, viaPoint: string, notes: string)

  /** A shop entry; a field an entry lacks is "". */
  datatype Shop = Shop(
    name: string,
    distance: string,
    address: string,
    phone: string,
    hours: string,
    description: string,
    speciality: string)

  datatype NearbyShops = NearbyShops(supermarkets: seq<Shop>, specialty: seq<Shop>)

  datatype BbqInfo = BbqInfo(preparation: string, shoppingArea: string, recommendations: seq<string>)

  datatype Config = Config(
    propertyName: string,
    address: string,
    propertyType: string,
    checkinTime: string,
    checkoutTime: string,
    wifiPassword: string,
    emergencyContact: string,
    description: string,
    access: Access,
    nearbyShops: NearbyShops,
    bbqInfo: BbqInfo)

  /** `minpakuConfig`. Fields an entry of the source does not have are "". */
  const Default := Config(
    "ととのいヴィラ PAL",
    "静岡県伊豆の国市奈古谷字石橋2206番133 エメラルドタウン207-1-77",
    "貸別荘・バーベキュー施設",
    "15:00",
    "11:00",
    "pal2024",
    "055-000-0000",
    "静岡県伊豆の国市にある、自然に囲まれたプライベート感あふれる貸別荘です。バーベキューや地元の新鮮な食材をお楽しみいただけます。",
    Access(
      "芙蓉公園（伊豆の国市奈古谷）",
      "南箱根・グランビュー（〒410-2132 静岡県伊豆の国市奈古谷2219-60）",
      "Googleマップでは細い山道に案内される場合があるため、南箱根・グランビューを経由地として設定することをおすすめします。"),
    NearbyShops(
      [ Shop("スーパーあおき 函南店", "車で約15分", "静岡県田方郡函南町間宮833-1", "0120-169-345",
             "9:00〜21:00", "地元食材が揃う人気スーパー。精肉・野菜・お惣菜も充実", ""),
        Shop("マックスバリュ 函南店", "車で約15分", "静岡県田方郡函南町間宮字寺前台341", "055-978-5811",
             "7:00〜23:30", "早朝から深夜まで営業。日用品や飲み物も揃って便利", ""),
        Shop("エース生鮮館 畑毛店", "車で約10分", "静岡県田方郡函南町柏谷1310-4", "055-970-1031",
             "", "ローカル感あふれる生鮮市場。野菜や果物が新鮮＆安い", "") ],
      [ Shop("杉山鮮魚店", "車で約10分", "静岡県田方郡函南町平井1264-282", "055-979-2690",
             "10:30～18:30（定休：月曜）",
             "沼津港直送の新鮮な魚。鯵の干物3枚380円、伊勢海老・鮑の予約も可能（1kgあたり8,000〜10,000円）",
             "鯵の干物、伊勢海老、鮑"),
        Shop("良酒倉庫 宮内酒店", "車で約10分", "静岡県伊豆の国市守木767-6", "", "",
             "伊豆の地酒やクラフトビールが豊富。BBQのお供にぴったり", "") ]),
    BbqInfo(
      "BBQの準備は到着前にお済ませください。別荘地内にはお店がほとんどありません。",
      "車で15分圏内に必要な食材・用品が揃うお店があります。",
      ["調味料や炭は事前購入推奨", "杉山鮮魚店の鯵の干物がおすすめ",
       "伊勢海老・鮑は事前予約がおすすめ", "地酒・クラフトビールで乾杯"]))

  const PropertyNameVar := "MINPAKU_PROPERTY_NAME"
  const AddressVar := "MINPAKU_ADDRESS"
  const CheckinTimeVar := "MINPAKU_CHECKIN_TIME"
  const CheckoutTimeVar := "MINPAKU_CHECKOUT_TIME"
  const WifiPasswordVar := "MINPAKU_WIFI_PASSWORD"
  const EmergencyContactVar := "MINPAKU_EMERGENCY_CONTACT"

  /** The variables `getMinpakuConfig` reads. */
  const OverrideVars: set<string> :=
    {PropertyNameVar, AddressVar, CheckinTimeVar, CheckoutTimeVar, WifiPasswordVar, EmergencyContactVar}

  /** The variable is set to a truthy (non-empty) string. */
  predicate Overrides(env: map<string, string>, name: string) {
    name in env && env[name] != ""
  }

  /** `process.env[name] || fallback`. */
  function EnvOr(env: map<string, string>, name: string, fallback: string): (r: string)
    ensures Overrides(env, name) ==> r == env[name]
    ensures !Overrides(env, name) ==> r == fallback
    ensures fallback != "" ==> r != ""
  {
    if name in env && env[name] != "" then env[name] else fallback
  }

  /** `getMinpakuConfig()`: the defaults, with the six overridable fields taken from
      the environment when set to a non-empty value. */
  function GetMinpakuConfig(env: map<string, string>): (c: Config)
    ensures c.propertyName == EnvOr(env, PropertyNameVar, Default.propertyName)
    ensures c.address == EnvOr(env, AddressVar, Default.address)
    ensures c.checkinTime == EnvOr(env, CheckinTimeVar, Default.checkinTime)
    ensures c.checkoutTime == EnvOr(env, CheckoutTimeVar, Default.checkoutTime)
    ensures c.wifiPassword == EnvOr(env, WifiPasswordVar, Default.wifiPassword)
    ensures c.emergencyContact == EnvOr(env, EmergencyContactVar, Default.emergencyContact)
    ensures c.propertyType == Default.propertyType && c.description == Default.description
    ensures c.access == Default.access && c.nearbyShops == Default.nearbyShops
    ensures c.bbqInfo == Default.bbqInfo
  {
    Default.(
      propertyName := EnvOr(env, PropertyNameVar, Default.propertyName),
      address := EnvOr(env, AddressVar, Default.address),
      checkinTime := EnvOr(env, CheckinTimeVar, Default.checkinTime),
      checkoutTime := EnvOr(env, CheckoutTimeVar, Default.checkoutTime),
      wifiPassword := EnvOr(env, WifiPasswordVar, Default.wifiPassword),
      emergencyContact := EnvOr(env, EmergencyContactVar, Default.emergencyContact))
  }

  /** With none of the six variables set to a non-empty value the result is
      `minpakuConfig` itself. */
  lemma NoOverridesGivesDefault(env: map<string, string>)
    requires forall name :: name in OverrideVars ==> !Overrides(env, name)
    ensures GetMinpakuConfig(env) == Default
  {
    assert !Overrides(env, PropertyNameVar) && !Overrides(env, AddressVar);
    assert !Overrides(env, CheckinTimeVar) && !Overrides(env, CheckoutTimeVar);
    assert !Overrides(env, WifiPasswordVar) && !Overrides(env, EmergencyContactVar);
  }

  /** Only the six variables matter: two environments that agree on them give the
      same configuration. */
  lemma OnlyOverrideVarsMatter(env1: map<string, string>, env2: map<string, string>)
    requires forall name :: name in OverrideVars ==> (Overrides(env1, name) <==> Overrides(env2, name))
    requires forall name :: name in OverrideVars && Overrides(env1, name) && Overrides(env2, name) ==> env1[name] == env2[name]
    ensures GetMinpakuConfig(env1) == GetMinpakuConfig(env2)
  {
    assert PropertyNameVar in OverrideVars && AddressVar in OverrideVars;
    assert CheckinTimeVar in OverrideVars && CheckoutTimeVar in OverrideVars;
    assert WifiPasswordVar in OverrideVars && EmergencyContactVar in OverrideVars;
  }

  /** Every field the prompt template shows stays non-empty, whatever the environment. */
  lemma ConfigFieldsNonEmpty(env: map<string, string>)
    ensures var c := GetMinpakuConfig(env);
      c.propertyName != "" && c.address != "" && c.checkinTime != "" && c.checkoutTime != ""
      && c.wifiPassword != "" && c.emergencyContact != ""
  {
  }
}
