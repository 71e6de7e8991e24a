/**
 * The configuration report: one entry per external service, in a fixed
 * order, saying whether its environment variables are set, and the list
 * of the services that are not.
 */
module ConfigCheck {
  import opened Common

  datatype ConfigStatus = ConfigStatus(key: string, configured: bool, message: string)

  const ConfiguredText := "Configured"

  const WalletConnectName := "WalletConnect Project ID"
  const PolygonRpcName := "Polygon RPC URL"
  const ContractName := "Contract Address"
  const MongoName := "MongoDB URI"
  const PinataName := "Pinata API Keys"
  const SideShiftName := "SideShift API Keys"
  const WalletConnectMissing := "Missing NEXT_PUBLIC_WALLETCONNECT_PROJECT_ID"
  const PolygonRpcMissing := "Missing NEXT_PUBLIC_POLYGON_AMOY_RPC"
  const ContractMissing := "Missing NEXT_PUBLIC_CONTRACT_ADDRESS"
  const MongoMissing := "Missing MONGODB_URI"
  const PinataMissing := "Missing PINATA_API_KEY or PINATA_SECRET_KEY"
  const SideShiftMissing := "Missing SIDESHIFT_SECRET or SIDESHIFT_AFFILIATE_ID"

  /** The name of the `k`-th service of the report. */
  function KeyName(k: nat): string
    requires k < 6
  {
    match k
    case 0 => WalletConnectName
    case 1 => PolygonRpcName
    case 2 => ContractName
    case 3 => MongoName
    case 4 => PinataName
    case _ => SideShiftName
  }

  /** The message of the `k`-th service when it is not configured. */
  function MissingText(k: nat): string
    requires k < 6
  {
    match k
    case 0 => WalletConnectMissing
    case 1 => PolygonRpcMissing
    case 2 => ContractMissing
    case 3 => MongoMissing
    case 4 => PinataMissing
    case _ => SideShiftMissing
  }

  // One predicate per service: when its variables count as configured.

  predicate WalletConnectConfigured(env: Env)
  {
    StrTruthy(EnvGet(env, "NEXT_PUBLIC_WALLETCONNECT_PROJECT_ID")) || StrTruthy(EnvGet(env, "NEXT_PUBLIC_WC_PROJECT_ID"))
  }

  predicate PolygonRpcConfigured(env: Env)
  {
    StrTruthy(EnvGet(env, "NEXT_PUBLIC_POLYGON_AMOY_RPC")) || StrTruthy(EnvGet(env, "POLYGON_AMOY_RPC"))
  }

  predicate ContractConfigured(env: Env)
  {
    StrTruthy(EnvGet(env, "NEXT_PUBLIC_CONTRACT_ADDRESS")) && EnvGet(env, "NEXT_PUBLIC_CONTRACT_ADDRESS").value != "0x0"
  }

  predicate MongoConfigured(env: Env)
  {
    StrTruthy(EnvGet(env, "MONGODB_URI"))
  }

  predicate PinataConfigured(env: Env)
  {
    StrTruthy(EnvGet(env, "PINATA_API_KEY")) && StrTruthy(EnvGet(env, "PINATA_SECRET_KEY"))
  }

  predicate SideShiftConfigured(env: Env)
  {
    StrTruthy(EnvGet(env, "SIDESHIFT_SECRET")) && StrTruthy(EnvGet(env, "SIDESHIFT_AFFILIATE_ID"))
  }

  /** Whether the `k`-th service of the report is configured. */
  predicate ConfiguredAt(env: Env, k: nat)
    requires k < 6
  {
    match k
    case 0 => WalletConnectConfigured(env)
    case 1 => PolygonRpcConfigured(env)
    case 2 => ContractConfigured(env)
    case 3 => MongoConfigured(env)
    case 4 => PinataConfigured(env)
    case _ => SideShiftConfigured(env)
  }

  /**
   * The `k`-th entry of the report: the service's name, whether it is
   * configured, and "Configured" or the service's missing text.
   */
  function StatusAt(env: Env, k: nat): ConfigStatus
    requires k < 6
  {
    var configured := ConfiguredAt(env, k);
    ConfigStatus(KeyName(k), configured, if configured then ConfiguredText else MissingText(k))
  }

  /** An entry's message reads "Configured" exactly when the entry is configured. */
  lemma MessageMatchesFlag(env: Env, k: nat)
    requires k < 6
    ensures StatusAt(env, k).message == ConfiguredText <==> StatusAt(env, k).configured
  {
    assert ConfiguredText[0] == 'C';
    match k
    case 0 => assert WalletConnectMissing[0] == 'M';
    case 1 => assert PolygonRpcMissing[0] == 'M';
    case 2 => assert ContractMissing[0] == 'M';
    case 3 => assert MongoMissing[0] == 'M';
    case 4 => assert PinataMissing[0] == 'M';
    case _ => assert SideShiftMissing[0] == 'M';
  }

  /** The six service names are distinct. */
  lemma KeyNamesDistinct()
    ensures forall i, j :: 0 <= i < j < 6 ==> KeyName(i) != KeyName(j)
  {
    forall i, j | 0 <= i < j < 6
      ensures KeyName(i) != KeyName(j)
    {
      assert |KeyName(i)| != |KeyName(j)| || KeyName(i)[1] != KeyName(j)[1];
    }
  }

  // One method per block of `checkApiKeys()`: each reads its service's
  // variables and builds that service's entry.

  method CheckWalletConnect(env: Env) returns (c: ConfigStatus)
    ensures c == StatusAt(env, 0)
  {
    var walletConnectId := EnvGet(env, "NEXT_PUBLIC_WALLETCONNECT_PROJECT_ID");
    if !StrTruthy(walletConnectId) {
      walletConnectId := EnvGet(env, "NEXT_PUBLIC_WC_PROJECT_ID");
    }
    var configured := StrTruthy(walletConnectId);
    c := ConfigStatus(KeyName(0), configured, if configured then ConfiguredText else MissingText(0));
  }

  method CheckPolygonRpc(env: Env) returns (c: ConfigStatus)
    ensures c == StatusAt(env, 1)
  {
    var polygonRpc := EnvGet(env, "NEXT_PUBLIC_POLYGON_AMOY_RPC");
    if !StrTruthy(polygonRpc) {
      polygonRpc := EnvGet(env, "POLYGON_AMOY_RPC");
    }
    var configured := StrTruthy(polygonRpc);
    c := ConfigStatus(KeyName(1), configured, if configured then ConfiguredText else MissingText(1));
  }

  method CheckContract(env: Env) returns (c: ConfigStatus)
    ensures c == StatusAt(env, 2)
  {
    var contractAddress := EnvGet(env, "NEXT_PUBLIC_CONTRACT_ADDRESS");
    var configured := StrTruthy(contractAddress) && contractAddress.value != "0x0";
    c := ConfigStatus(KeyName(2), configured, if configured then ConfiguredText else MissingText(2));
  }

  method CheckMongo(env: Env) returns (c: ConfigStatus)
    ensures c == StatusAt(env, 3)
  {
    var mongodbUri := EnvGet(env, "MONGODB_URI");
    var configured := StrTruthy(mongodbUri);
    c := ConfigStatus(KeyName(3), configured, if configured then ConfiguredText else MissingText(3));
  }

  method CheckPinata(env: Env) returns (c: ConfigStatus)
    ensures c == StatusAt(env, 4)
  {
    var pinataKey := EnvGet(env, "PINATA_API_KEY");
    var pinataSecret := EnvGet(env, "PINATA_SECRET_KEY");
    var configured := StrTruthy(pinataKey) && StrTruthy(pinataSecret);
    c := ConfigStatus(KeyName(4), configured, if configured then ConfiguredText else MissingText(4));
  }

  method CheckSideShift(env: Env) returns (c: ConfigStatus)
    ensures c == StatusAt(env, 5)
  {
    var sideshiftSecret := EnvGet(env, "SIDESHIFT_SECRET");
    var sideshiftAffiliate := EnvGet(env, "SIDESHIFT_AFFILIATE_ID");
    var configured := StrTruthy(sideshiftSecret) && StrTruthy(sideshiftAffiliate);
    c := ConfigStatus(KeyName(5), configured, if configured then ConfiguredText else MissingText(5));
  }

  /** `checkApiKeys()`: the six entries, pushed in report order. */
  method CheckApiKeys(env: Env) returns (checks: seq<ConfigStatus>)
    ensures |checks| == 6
    ensures forall k :: 0 <= k < 6 ==> checks[k] == StatusAt(env, k)
  {
    checks := [];
    var c0 := CheckWalletConnect(env);
    checks := checks + [c0];
    var c1 := CheckPolygonRpc(env);
    checks := checks + [c1];
    var c2 := CheckContract(env);
    checks := checks + [c2];
    var c3 := CheckMongo(env);
    checks := checks + [c3];
    var c4 := CheckPinata(env);
    checks := checks + [c4];
    var c5 := CheckSideShift(env);
    checks := checks + [c5];
    assert checks == [c0, c1, c2, c3, c4, c5];
  }

  /** `checks.filter(c => !c.configured).map(c => c.key)`. */
  function MissingKeys(checks: seq<ConfigStatus>): (keys: seq<string>)
    ensures |keys| <= |checks|
    ensures keys == [] <==> forall i :: 0 <= i < |checks| ==> checks[i].configured
  {
    if checks == [] then []
    else (if checks[0].configured then [] else [checks[0].key]) + MissingKeys(checks[1..])
  }

  /** The missing keys keep the report order: the list splits along the report. */
  lemma {:induction false} MissingKeysAppend(a: seq<ConfigStatus>, b: seq<ConfigStatus>)
    ensures MissingKeys(a + b) == MissingKeys(a) + MissingKeys(b)
  {
    if a == [] {
      assert a + b == b;
    } else {
      assert (a + b)[1..] == a[1..] + b;
      MissingKeysAppend(a[1..], b);
    }
  }

  /** A key is listed exactly when its entry is not configured. */
  lemma {:induction false} MissingKeysMembership(checks: seq<ConfigStatus>, k: string)
    requires forall i, j :: 0 <= i < j < |checks| ==> checks[i].key != checks[j].key
    ensures k in MissingKeys(checks) <==> exists i :: 0 <= i < |checks| && checks[i].key == k && !checks[i].configured
  {
    if checks != [] {
      MissingKeysMembership(checks[1..], k);
      if k in MissingKeys(checks) && !(k in MissingKeys(checks[1..])) {
        assert checks[0].key == k && !checks[0].configured;
      }
      if exists i :: 0 <= i < |checks| && checks[i].key == k && !checks[i].configured {
        var i :| 0 <= i < |checks| && checks[i].key == k && !checks[i].configured;
        if i > 0 {
          assert checks[1..][i - 1] == checks[i];
        }
      }
    }
  }

  /** The report `checkApiKeys()` builds, as a value. */
  function Report(env: Env): (r: seq<ConfigStatus>)
    ensures |r| == 6 && forall k :: 0 <= k < 6 ==> r[k] == StatusAt(env, k)
  {
    seq(6, k requires 0 <= k < 6 => StatusAt(env, k))
  }

  /** `getMissingKeys()`: the names of the unconfigured services, in report
      order and each once. */
  method GetMissingKeys(env: Env) returns (keys: seq<string>)
    ensures keys == MissingKeys(Report(env))
    ensures keys == [] <==> forall k :: 0 <= k < 6 ==> ConfiguredAt(env, k)
    ensures forall k :: 0 <= k < 6 ==> (KeyName(k) in keys <==> !ConfiguredAt(env, k))
    ensures forall key :: key in keys ==> exists k :: 0 <= k < 6 && KeyName(k) == key
    ensures forall i, j :: 0 <= i < j < |keys| ==> keys[i] != keys[j]
  {
    var checks := CheckApiKeys(env);
    assert checks == Report(env);
    keys := MissingKeys(checks);
    MissingKeysOfEnv(env);
    MissingKeysOfEnvDistinct(env);
  }

  /** What `GetMissingKeys` promises, stated of the report as a value. */
  lemma MissingKeysOfEnv(env: Env)
    ensures var keys := MissingKeys(Report(env));
      && (keys == [] <==> forall k :: 0 <= k < 6 ==> ConfiguredAt(env, k))
      && (forall k :: 0 <= k < 6 ==> (KeyName(k) in keys <==> !ConfiguredAt(env, k)))
      && (forall key :: key in keys ==> exists k :: 0 <= k < 6 && KeyName(k) == key)
  {
    var checks := Report(env);
    ReportEntries(env, checks);
    ReportKeysDistinct(checks);
    MissingKeysOfReport(checks);
  }

  /** No service's name is listed twice. */
  lemma MissingKeysOfEnvDistinct(env: Env)
    ensures NoDuplicates(MissingKeys(Report(env)))
  {
    var checks := Report(env);
    ReportEntries(env, checks);
    ReportKeysDistinct(checks);
    MissingKeysDistinct(checks);
  }

  predicate NoDuplicates(s: seq<string>)
  {
    forall i, j :: 0 <= i < j < |s| ==> s[i] != s[j]
  }

  predicate DistinctEntries(checks: seq<ConfigStatus>)
  {
    forall i, j :: 0 <= i < j < |checks| ==> checks[i].key != checks[j].key
  }

  /** With distinct names in the report, no name is listed twice. */
  lemma {:induction false} MissingKeysDistinct(checks: seq<ConfigStatus>)
    requires DistinctEntries(checks)
    ensures NoDuplicates(MissingKeys(checks))
  {
    if checks != [] {
      var rest := checks[1..];
      DistinctEntriesTail(checks);
      MissingKeysDistinct(rest);
      var tail := MissingKeys(rest);
      if checks[0].configured {
        assert MissingKeys(checks) == tail;
      } else {
        assert MissingKeys(checks) == [checks[0].key] + tail;
        FirstKeyNotListedAfter(checks);
        NoDuplicatesCons(checks[0].key, tail);
      }
    }
  }

  lemma DistinctEntriesTail(checks: seq<ConfigStatus>)
    requires checks != [] && DistinctEntries(checks)
    ensures DistinctEntries(checks[1..])
  {
    var rest := checks[1..];
    forall i, j | 0 <= i < j < |rest|
      ensures rest[i].key != rest[j].key
    {
      assert rest[i] == checks[i + 1] && rest[j] == checks[j + 1];
    }
  }

  /** The first entry's name is not among the names listed for the rest. */
  lemma FirstKeyNotListedAfter(checks: seq<ConfigStatus>)
    requires checks != [] && DistinctEntries(checks)
    ensures checks[0].key !in MissingKeys(checks[1..])
  {
    var rest := checks[1..];
    DistinctEntriesTail(checks);
    MissingKeysOfReport(rest);
    forall k | 0 <= k < |rest|
      ensures rest[k].key != checks[0].key
    {
      assert rest[k] == checks[k + 1];
    }
  }

  lemma NoDuplicatesCons(x: string, t: seq<string>)
    requires NoDuplicates(t) && x !in t
    ensures NoDuplicates([x] + t)
  {
    var s := [x] + t;
    forall i, j | 0 <= i < j < |s|
      ensures s[i] != s[j]
    {
      assert s[j] == t[j - 1];
      if i > 0 {
        assert s[i] == t[i - 1];
      }
    }
  }

  /** Each entry of the report names its service and carries its flag. */
  lemma ReportEntries(env: Env, checks: seq<ConfigStatus>)
    requires |checks| == 6 && forall k :: 0 <= k < 6 ==> checks[k] == StatusAt(env, k)
    ensures forall k :: 0 <= k < 6 ==> checks[k].key == KeyName(k) && (checks[k].configured <==> ConfiguredAt(env, k))
  {
    forall k | 0 <= k < 6
      ensures checks[k].key == KeyName(k) && (checks[k].configured <==> ConfiguredAt(env, k))
    {
      assert checks[k] == StatusAt(env, k);
    }
  }

  /** The names in a report listing the six services in order are distinct. */
  lemma ReportKeysDistinct(checks: seq<ConfigStatus>)
    requires |checks| == 6 && forall k :: 0 <= k < 6 ==> checks[k].key == KeyName(k)
    ensures forall i, j :: 0 <= i < j < |checks| ==> checks[i].key != checks[j].key
  {
    KeyNamesDistinct();
  }

  /** With distinct names, an entry's name is listed exactly when the entry
      is not configured, and only entries' names are listed. */
  lemma MissingKeysOfReport(checks: seq<ConfigStatus>)
    requires forall i, j :: 0 <= i < j < |checks| ==> checks[i].key != checks[j].key
    ensures forall k :: 0 <= k < |checks| ==> (checks[k].key in MissingKeys(checks) <==> !checks[k].configured)
    ensures forall key :: key in MissingKeys(checks) ==> exists k :: 0 <= k < |checks| && checks[k].key == key
  {
    forall k | 0 <= k < |checks|
      ensures checks[k].key in MissingKeys(checks) <==> !checks[k].configured
    {
      MissingKeysMembership(checks, checks[k].key);
      if checks[k].key in MissingKeys(checks) {
        var i :| 0 <= i < |checks| && checks[i].key == checks[k].key && !checks[i].configured;
        assert i == k;
      }
    }
    forall key | key in MissingKeys(checks)
      ensures exists k :: 0 <= k < |checks| && checks[k].key == key
    {
      MissingKeysMembership(checks, key);
    }
  }
}
