/**
 The validator registry of the command line tool: the fixed map from option
 keys to built-in validators, and the walk over the configuration entries
 that turns every enabled option into a validator spec. Allowing hosts
 subsumes allowing URLs, so `allowed-urls` is skipped whenever
 `allowed-hosts` is truthy.
 */
module Registry {
  import opened JsValues

  /** The six built-in validators the command line can enable. */
  datatype Policy =
    | ValidateHosts
    | ValidateHttps
    | ValidatePackageNames
    | ValidateSchemes
    | ValidateUrls
    | ValidateIntegrity

  /** The identifier under which the validation engine knows each validator
      (note the capital letter of the package-name validator). */
  function Identifier(p: Policy): string {
    match p
    case ValidateHosts => "validateHosts"
    case ValidateHttps => "validateHttps"
    case ValidatePackageNames => "ValidatePackageNames"
    case ValidateSchemes => "validateSchemes"
    case ValidateUrls => "validateUrls"
    case ValidateIntegrity => "validateIntegrity"
  }

  /** Distinct validators have distinct identifiers, so naming a spec by its
      validator loses nothing of the string the engine receives. */
  lemma IdentifierInjective(p: Policy, q: Policy)
    ensures Identifier(p) == Identifier(q) <==> p == q
  {
  }

  /** The option key that enables each validator: the supported-validators
      map sends it back to that validator. */
  function KeyOf(p: Policy): (key: string)
    ensures key in SupportedValidators && SupportedValidators[key] == p
  {
    match p
    case ValidateHosts => "allowed-hosts"
    case ValidateHttps => "validate-https"
    case ValidatePackageNames => "validate-package-names"
    case ValidateSchemes => "allowed-schemes"
    case ValidateUrls => "allowed-urls"
    case ValidateIntegrity => "validate-integrity"
  }

  /** The `supportedValidators` map of the command line tool. */
  const SupportedValidators: map<string, Policy> := map[
    "allowed-hosts" := ValidateHosts,
    "validate-https" := ValidateHttps,
    "validate-package-names" := ValidatePackageNames,
    "allowed-schemes" := ValidateSchemes,
    "allowed-urls" := ValidateUrls,
    "validate-integrity" := ValidateIntegrity
  ]

  /** The map is exactly the inverse of `KeyOf`: a key is supported and maps
      to `p` if and only if it is the key of `p`. */
  lemma SupportedValidatorsInvertKeyOf(key: string, p: Policy)
    ensures key in SupportedValidators && SupportedValidators[key] == p <==> key == KeyOf(p)
  {
    if key == KeyOf(p) {
      match p
      case ValidateHosts =>
      case ValidateHttps =>
      case ValidatePackageNames =>
      case ValidateSchemes =>
      case ValidateUrls =>
      case ValidateIntegrity =>
    }
  }

  /** Settings every validator receives, whatever its own values. */
  datatype Options = Options(
    emptyHostname: Value,
    allowedHosts: Value,
    allowedUrls: Value,
    allowedPackageNameAliases: Value)

  /** One unit of configured work handed to the validation engine. */
  datatype ValidatorSpec = ValidatorSpec(name: Policy, values: Value, options: Options)

  /** The shared options, read from the configuration object. */
  function SharedOptions(c: Config): Options {
    Options(Get(c, "empty-hostname"), Get(c, "allowed-hosts"), Get(c, "allowed-urls"),
            Get(c, "allowed-package-name-aliases"))
  }

  /** Whether `allowed-urls` is to be skipped: `allowed-hosts` is truthy. */
  predicate HostsAllowed(c: Config) {
    Truthy(Get(c, "allowed-hosts"))
  }

  /** Whether one configuration entry yields a validator spec, given whether
      `allowed-hosts` is truthy. */
  predicate Selects(key: string, value: Value, hostsOn: bool) {
    && !(key == "allowed-urls" && hostsOn)
    && Truthy(value)
    && key in SupportedValidators
  }

  /** The spec built from one selected entry. */
  function SpecOf(e: Entry, shared: Options): ValidatorSpec
    requires e.0 in SupportedValidators
  {
    ValidatorSpec(SupportedValidators[e.0], e.1, shared)
  }

  /** The specs one pass over `entries` pushes, in entry order. */
  function SelectFrom(entries: seq<Entry>, shared: Options, hostsOn: bool): (r: seq<ValidatorSpec>)
    ensures |r| <= |entries|
    ensures forall k :: 0 <= k < |r| ==> r[k].options == shared && Truthy(r[k].values)
    ensures forall k :: 0 <= k < |r| ==> (KeyOf(r[k].name), r[k].values) in entries
    ensures hostsOn ==> forall k :: 0 <= k < |r| ==> r[k].name != ValidateUrls
  {
    if entries == [] then []
    else
      var e := entries[0];
      var rest := SelectFrom(entries[1..], shared, hostsOn);
      if Selects(e.0, e.1, hostsOn) then
        SupportedValidatorsInvertKeyOf(e.0, SupportedValidators[e.0]);
        [SpecOf(e, shared)] + rest
      else rest
  }

  /** The specs one iteration of the per-lockfile loop adds. */
  function SelectSpecs(c: Config): seq<ValidatorSpec> {
    SelectFrom(c, SharedOptions(c), HostsAllowed(c))
  }

  /** Every spec of a pass carries the same four shared options read from
      the configuration, holds the truthy value of the key that enabled it,
      and no URL validator is built while hosts are allowed. */
  lemma SelectSpecsShape(c: Config)
    ensures var r := SelectSpecs(c);
            forall k :: 0 <= k < |r| ==>
              r[k].options == Options(Get(c, "empty-hostname"), Get(c, "allowed-hosts"),
                                      Get(c, "allowed-urls"), Get(c, "allowed-package-name-aliases"))
    ensures var r := SelectSpecs(c);
            forall k :: 0 <= k < |r| ==> r[k].values == Get(c, KeyOf(r[k].name)) && Truthy(r[k].values)
    ensures var r := SelectSpecs(c);
            Truthy(Get(c, "allowed-hosts")) ==> forall k :: 0 <= k < |r| ==> r[k].name != ValidateUrls
  {
  }

  /* ---------------------------------------------------------------------
     Counting: each validator appears at most once per pass, exactly when
     it is enabled.
     --------------------------------------------------------------------- */

  /** The number of specs for validator `p`. */
  function Count(specs: seq<ValidatorSpec>, p: Policy): nat {
    if specs == [] then 0
    else (if specs[0].name == p then 1 else 0) + Count(specs[1..], p)
  }

  /** Validator `p` is enabled when its key holds a truthy value, except that
      the URL validator is disabled while hosts are allowed. */
  predicate Enabled(c: Config, p: Policy) {
    && Truthy(Get(c, KeyOf(p)))
    && !(p == ValidateUrls && Truthy(Get(c, "allowed-hosts")))
  }

  lemma {:induction false} CountSelectFrom(c: Config, shared: Options, hostsOn: bool, p: Policy)
    ensures Count(SelectFrom(c, shared, hostsOn), p)
         == if Selects(KeyOf(p), Get(c, KeyOf(p)), hostsOn) then 1 else 0
    decreases |c|
  {
    if c != [] {
      var e := c[0];
      var rest: Config := c[1..];
      assert c == [e] + rest;
      CountSelectFrom(rest, shared, hostsOn, p);
      SupportedValidatorsInvertKeyOf(e.0, p);
      if e.0 == KeyOf(p) {
        assert forall i :: 0 <= i < |rest| ==> rest[i].0 != KeyOf(p) by {
          forall i | 0 <= i < |rest| ensures rest[i].0 != KeyOf(p) {
            assert rest[i] == c[i + 1];
          }
        }
      }
    }
  }

  /** Each validator occurs once in a pass if it is enabled and not at all
      otherwise. */
  lemma {:induction false} SelectSpecsCount(c: Config, p: Policy)
    ensures Count(SelectSpecs(c), p) == if Enabled(c, p) then 1 else 0
  {
    CountSelectFrom(c, SharedOptions(c), HostsAllowed(c), p);
    SupportedValidatorsInvertKeyOf(KeyOf(p), p);
  }

  /** When `allowed-hosts` is truthy no URL validator is ever built,
      whatever `allowed-urls` holds. */
  lemma UrlsSkippedWhenHostsAllowed(c: Config)
    requires Truthy(Get(c, "allowed-hosts"))
    ensures Count(SelectSpecs(c), ValidateUrls) == 0
  {
    SelectSpecsCount(c, ValidateUrls);
  }

  /** When `allowed-hosts` is falsy and `allowed-urls` truthy, a pass builds
      exactly one URL validator, whose values are the `allowed-urls` value. */
  lemma {:induction false} UrlsSelectedOnce(c: Config)
    requires !Truthy(Get(c, "allowed-hosts")) && Truthy(Get(c, "allowed-urls"))
    ensures Count(SelectSpecs(c), ValidateUrls) == 1
    ensures forall k :: 0 <= k < |SelectSpecs(c)| && SelectSpecs(c)[k].name == ValidateUrls ==>
      SelectSpecs(c)[k].values == Get(c, "allowed-urls")
  {
    SelectSpecsCount(c, ValidateUrls);
    SelectSpecsShape(c);
    var r := SelectSpecs(c);
    assert KeyOf(ValidateUrls) == "allowed-urls";
    forall k | 0 <= k < |r| && r[k].name == ValidateUrls
      ensures r[k].values == Get(c, "allowed-urls")
    {
      assert r[k].values == Get(c, KeyOf(r[k].name));
    }
  }

  /** Every spec is counted under its own validator. */
  lemma {:induction false} CountsAddUp(specs: seq<ValidatorSpec>)
    ensures |specs| == Count(specs, ValidateHosts) + Count(specs, ValidateHttps)
                     + Count(specs, ValidatePackageNames) + Count(specs, ValidateSchemes)
                     + Count(specs, ValidateUrls) + Count(specs, ValidateIntegrity)
  {
    if specs != [] {
      CountsAddUp(specs[1..]);
    }
  }

  /** A pass never builds more than five specs: six validators exist, and
      the host and URL validators exclude each other. */
  lemma AtMostFiveSpecs(c: Config)
    ensures |SelectSpecs(c)| <= 5
  {
    var r := SelectSpecs(c);
    CountsAddUp(r);
    SelectSpecsCount(c, ValidateHosts);
    SelectSpecsCount(c, ValidateHttps);
    SelectSpecsCount(c, ValidatePackageNames);
    SelectSpecsCount(c, ValidateSchemes);
    SelectSpecsCount(c, ValidateUrls);
    SelectSpecsCount(c, ValidateIntegrity);
  }

  /* ---------------------------------------------------------------------
     Order: the specs follow the entries that enabled them.
     --------------------------------------------------------------------- */

  /** The positions, ascending, of the entries among the first `n` that
      yield a spec. */
  function SelectedIndices(entries: seq<Entry>, hostsOn: bool, n: nat): (idx: seq<nat>)
    requires n <= |entries|
    ensures forall k :: 0 <= k < |idx| ==> idx[k] < n
    ensures forall k :: 0 <= k < |idx| ==> Selects(entries[idx[k]].0, entries[idx[k]].1, hostsOn)
    ensures forall k, l :: 0 <= k < l < |idx| ==> idx[k] < idx[l]
    ensures forall i :: 0 <= i < n && Selects(entries[i].0, entries[i].1, hostsOn) ==> i in idx
  {
    if n == 0 then []
    else
      var e := entries[n - 1];
      SelectedIndices(entries, hostsOn, n - 1) + (if Selects(e.0, e.1, hostsOn) then [n - 1] else [])
  }

  lemma {:induction false} SelectFromAppend(a: seq<Entry>, b: seq<Entry>, shared: Options, hostsOn: bool)
    ensures SelectFrom(a + b, shared, hostsOn) == SelectFrom(a, shared, hostsOn) + SelectFrom(b, shared, hostsOn)
    decreases |a|
  {
    if a != [] {
      assert (a + b)[1..] == a[1..] + b;
      SelectFromAppend(a[1..], b, shared, hostsOn);
    } else {
      assert a + b == b;
    }
  }

  /** Appending one entry appends its spec, if it yields one. */
  lemma SelectFromSnoc(entries: seq<Entry>, e: Entry, shared: Options, hostsOn: bool)
    ensures SelectFrom(entries + [e], shared, hostsOn)
         == SelectFrom(entries, shared, hostsOn) + (if Selects(e.0, e.1, hostsOn) then [SpecOf(e, shared)] else [])
  {
    SelectFromAppend(entries, [e], shared, hostsOn);
    assert [e][1..] == [];
  }

  lemma {:induction false} SelectFromPrefix(entries: seq<Entry>, shared: Options, hostsOn: bool, n: nat)
    requires n <= |entries|
    ensures var idx := SelectedIndices(entries, hostsOn, n);
            var r := SelectFrom(entries[..n], shared, hostsOn);
            |r| == |idx| && forall k :: 0 <= k < |idx| ==> r[k] == SpecOf(entries[idx[k]], shared)
  {
    if n > 0 {
      SelectFromPrefix(entries, shared, hostsOn, n - 1);
      var e := entries[n - 1];
      assert entries[..n] == entries[..n - 1] + [e];
      SelectFromSnoc(entries[..n - 1], e, shared, hostsOn);
      var before, idxBefore := SelectFrom(entries[..n - 1], shared, hostsOn), SelectedIndices(entries, hostsOn, n - 1);
      if Selects(e.0, e.1, hostsOn) {
        assert SelectFrom(entries[..n], shared, hostsOn) == before + [SpecOf(e, shared)];
        assert SelectedIndices(entries, hostsOn, n) == idxBefore + [n - 1];
      } else {
        assert SelectFrom(entries[..n], shared, hostsOn) == before;
        assert SelectedIndices(entries, hostsOn, n) == idxBefore;
      }
    }
  }

  /** The k-th spec of a pass comes from the k-th entry that enables one:
      specs keep the relative order of their keys in the configuration, and
      every other entry contributes nothing. */
  lemma SelectSpecsInEntryOrder(c: Config)
    ensures var idx := SelectedIndices(c, HostsAllowed(c), |c|);
            var r := SelectSpecs(c);
            && |r| == |idx|
            && (forall k :: 0 <= k < |idx| ==> r[k] == SpecOf(c[idx[k]], SharedOptions(c)))
            && (forall k, l :: 0 <= k < l < |idx| ==> idx[k] < idx[l])
            && (forall i :: 0 <= i < |c| ==> (i in idx <==> Selects(c[i].0, c[i].1, HostsAllowed(c))))
  {
    SelectFromPrefix(c, SharedOptions(c), HostsAllowed(c), |c|);
    assert c[..|c|] == c;
  }

  /* ---------------------------------------------------------------------
     The walk as the tool writes it.
     --------------------------------------------------------------------- */

  /** What one turn of the inner loop appends, spelled as the tool tests it. */
  lemma PushOne(entries: seq<Entry>, j: nat, shared: Options, hostsOn: bool)
    requires j < |entries|
    ensures SelectFrom(entries[..j + 1], shared, hostsOn)
         == SelectFrom(entries[..j], shared, hostsOn)
            + (if !(entries[j].0 == "allowed-urls" && hostsOn) && Truthy(entries[j].1)
                  && entries[j].0 in SupportedValidators
               then [ValidatorSpec(SupportedValidators[entries[j].0], entries[j].1, shared)] else [])
  {
    SelectFromSnoc(entries[..j], entries[j], shared, hostsOn);
    assert entries[..j] + [entries[j]] == entries[..j + 1];
  }

  /** The inner loop of the tool: walk the configuration entries in order
      and push a spec for every supported key with a truthy value, skipping
      `allowed-urls` while `allowed-hosts` is truthy. The tool reads
      `allowed-hosts` only on the `allowed-urls` entry and the four shared
      options on each push; the configuration does not change during the
      walk, so they are read once here. */
  method PushSpecs(c: Config, validators: seq<ValidatorSpec>) returns (pushed: seq<ValidatorSpec>)
    ensures pushed == validators + SelectSpecs(c)
  {
    var hostsOn := Truthy(Get(c, "allowed-hosts"));
    var options := Options(Get(c, "empty-hostname"), Get(c, "allowed-hosts"), Get(c, "allowed-urls"),
                           Get(c, "allowed-package-name-aliases"));
    pushed := PushFrom(c, options, hostsOn, validators);
  }

  method PushFrom(entries: seq<Entry>, options: Options, hostsOn: bool, validators: seq<ValidatorSpec>)
    returns (pushed: seq<ValidatorSpec>)
    ensures pushed == validators + SelectFrom(entries, options, hostsOn)
  {
    pushed := validators;
    var j := 0;
    while j < |entries|
      invariant 0 <= j <= |entries|
      invariant pushed == validators + SelectFrom(entries[..j], options, hostsOn)
    {
      var (key, value) := entries[j];
      PushOne(entries, j, options, hostsOn);
      if key == "allowed-urls" && hostsOn {
        j := j + 1;
        continue;
      }
      if Truthy(value) && key in SupportedValidators {
        pushed := pushed + [ValidatorSpec(SupportedValidators[key], value, options)];
      }
      j := j + 1;
    }
    assert entries[..|entries|] == entries;
  }
}
