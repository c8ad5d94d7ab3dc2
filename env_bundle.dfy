/**
 * Linked environment bundles: a config map and a secret that share a name and
 * a namespace. The plain variables live in the config map; each secret variable
 * lives in the secret, and in the config map its key holds a placeholder naming
 * the bundle. The handlers write the secret first and the config map second,
 * and stop at the first call the cluster rejects.
 */
module EnvBundle {
  import opened Wrappers
  import opened Utf8
  import opened Cluster

  /** The body of a create or update request. */
  datatype ConfigMapForm = ConfigMapForm(
    name: string,
    namespace: string,
    envVariables: map<string, string>,
    secretEnvVariables: map<string, string>)

  /** What a handler reports: the form it wrote, a plain success, or the cluster's error. */
  datatype Reply = Written(form: ConfigMapForm) | Deleted | InternalError(error: AgentError)

  /** The cluster's answer to the first and to the second Agent call of a handler. */
  datatype Responses = Responses(secretCall: Option<AgentError>, configMapCall: Option<AgentError>)

  const PlaceholderPrefix: string := "PORTERSECRET_"

  /** The config-map value that stands for "read this key from the secret of `bundle`". */
  function Placeholder(bundle: string): (p: string)
    ensures |p| == |PlaceholderPrefix| + |bundle|
    ensures p[..|PlaceholderPrefix|] == PlaceholderPrefix && p[|PlaceholderPrefix|..] == bundle
  {
    PlaceholderPrefix + bundle
  }

  /** The bundle a config-map value defers to, if the value is a placeholder. */
  function ReferencedBundle(value: string): (r: Option<string>)
    ensures r.Some? ==> Placeholder(r.value) == value
    ensures r.None? ==> forall b :: Placeholder(b) != value
  {
    var n := |PlaceholderPrefix|;
    if n <= |value| && value[..n] == PlaceholderPrefix then
      Some(value[n..])
    else
      assert forall b :: Placeholder(b)[..n] == PlaceholderPrefix;
      None
  }

  lemma PlaceholderRefersToBundle(bundle: string)
    ensures ReferencedBundle(Placeholder(bundle)) == Some(bundle)
  {
    assert Placeholder(bundle)[|PlaceholderPrefix|..] == bundle;
  }

  function KeyOf(form: ConfigMapForm): ResourceKey {
    ResourceKey(form.namespace, form.name)
  }

  /** The secret data built from the secret variables: each value's raw bytes. */
  function SecretPayload(secretVars: map<string, string>): map<string, seq<byte>> {
    map k | k in secretVars :: Encode(secretVars[k])
  }

  /** The config map written on create: every secret key is overwritten by the placeholder. */
  function CreatedEnv(env: map<string, string>, secretVars: map<string, string>, bundle: string): map<string, string> {
    map k | k in env.Keys + secretVars.Keys :: if k in secretVars then Placeholder(bundle) else env[k]
  }

  /** The value an update writes at secret key `k`, following the handler's three-way rule. */
  function UpdatedValue(env: map<string, string>, secretVars: map<string, string>, bundle: string, k: string): string
    requires k in secretVars
  {
    if secretVars[k] == "" && k !in env then ""
    else if secretVars[k] != "" then Placeholder(bundle)
    else env[k]
  }

  /** The config map written on update. */
  function UpdatedEnv(env: map<string, string>, secretVars: map<string, string>, bundle: string): map<string, string> {
    map k | k in env.Keys + secretVars.Keys ::
      if k in secretVars then UpdatedValue(env, secretVars, bundle, k) else env[k]
  }

  /** Every key of the secret has, in the config map, a placeholder naming `bundle`. */
  ghost predicate SecretKeysLinked(env: map<string, string>, data: map<string, seq<byte>>, bundle: string) {
    forall k :: k in data ==> k in env && ReferencedBundle(env[k]) == Some(bundle)
  }

  /** Every placeholder naming `bundle` in the config map has a key in the secret. */
  ghost predicate PlaceholdersBacked(env: map<string, string>, data: map<string, seq<byte>>, bundle: string) {
    forall k :: k in env && ReferencedBundle(env[k]) == Some(bundle) ==> k in data
  }

  // ---------------------------------------------------------------------------
  // The loops of the handlers
  // ---------------------------------------------------------------------------

  /** The loop that fills `secretData`: one entry per secret variable, in any iteration order. */
  method BuildSecretData(secretVars: map<string, string>) returns (secretData: map<string, seq<byte>>)
    ensures secretData == SecretPayload(secretVars)
  {
    secretData := map[];
    var todo := secretVars.Keys;
    while todo != {}
      invariant todo <= secretVars.Keys
      invariant secretData.Keys == secretVars.Keys - todo
      invariant forall k :: k in secretData ==> secretData[k] == Encode(secretVars[k])
      decreases |todo|
    {
      var k :| k in todo;
      secretData := secretData[k := Encode(secretVars[k])];
      todo := todo - {k};
    }
  }

  /** The create handler's loop over the secret variables, updating the plain variables in place. */
  method SubstitutePlaceholders(env: map<string, string>, secretVars: map<string, string>, bundle: string)
    returns (written: map<string, string>)
    ensures written == CreatedEnv(env, secretVars, bundle)
  {
    written := env;
    var todo := secretVars.Keys;
    assert Restrict(secretVars, secretVars.Keys - todo) == map[];
    assert CreatedEnv(env, map[], bundle) == env;
    while todo != {}
      invariant todo <= secretVars.Keys
      invariant written == CreatedEnv(env, Restrict(secretVars, secretVars.Keys - todo), bundle)
      decreases |todo|
    {
      var k :| k in todo;
      CreatedEnvVisit(env, secretVars, todo, k, bundle);
      written := written[k := Placeholder(bundle)];
      todo := todo - {k};
    }
    assert secretVars.Keys - todo == secretVars.Keys;
    RestrictAll(secretVars);
  }

  /** The update handler's loop: the three-way rule, deciding presence on the map being updated. */
  method ApplySecretUpdates(env: map<string, string>, secretVars: map<string, string>, bundle: string)
    returns (written: map<string, string>)
    ensures written == UpdatedEnv(env, secretVars, bundle)
  {
    written := env;
    var todo := secretVars.Keys;
    assert Restrict(secretVars, secretVars.Keys - todo) == map[];
    assert UpdatedEnv(env, map[], bundle) == env;
    while todo != {}
      invariant todo <= secretVars.Keys
      invariant written == UpdatedEnv(env, Restrict(secretVars, secretVars.Keys - todo), bundle)
      decreases |todo|
    {
      var k :| k in todo;
      UpdatedEnvVisit(env, secretVars, todo, k, bundle);
      var val := secretVars[k];
      var found := k in written;
      assert found == (k in env) && (found ==> written[k] == env[k]);
      if val == "" && !found {
        written := written[k := ""];
      } else if val != "" {
        written := written[k := Placeholder(bundle)];
      } else {
        assert written == written[k := env[k]];
      }
      todo := todo - {k};
    }
    assert secretVars.Keys - todo == secretVars.Keys;
    RestrictAll(secretVars);
  }

  /** The secret variables already visited by a loop over `m`. */
  function Restrict(m: map<string, string>, keys: set<string>): map<string, string> {
    map k | k in keys && k in m :: m[k]
  }

  lemma RestrictGrows(m: map<string, string>, keys: set<string>, k: string)
    requires k in m && k !in keys
    ensures k !in Restrict(m, keys)
    ensures Restrict(m, keys + {k}) == Restrict(m, keys)[k := m[k]]
  {
  }

  lemma RestrictAll(m: map<string, string>)
    ensures Restrict(m, m.Keys) == m
  {
  }

  lemma CreatedEnvVisit(env: map<string, string>, secretVars: map<string, string>, todo: set<string>, k: string, bundle: string)
    requires k in todo && todo <= secretVars.Keys
    ensures CreatedEnv(env, Restrict(secretVars, secretVars.Keys - (todo - {k})), bundle)
         == CreatedEnv(env, Restrict(secretVars, secretVars.Keys - todo), bundle)[k := Placeholder(bundle)]
  {
    RestrictGrows(secretVars, secretVars.Keys - todo, k);
    assert secretVars.Keys - (todo - {k}) == (secretVars.Keys - todo) + {k};
    CreatedEnvStep(env, Restrict(secretVars, secretVars.Keys - todo), k, secretVars[k], bundle);
  }

  lemma UpdatedEnvVisit(env: map<string, string>, secretVars: map<string, string>, todo: set<string>, k: string, bundle: string)
    requires k in todo && todo <= secretVars.Keys
    ensures var before := UpdatedEnv(env, Restrict(secretVars, secretVars.Keys - todo), bundle);
      (k in before <==> k in env) && (k in env ==> before[k] == env[k]) &&
      UpdatedEnv(env, Restrict(secretVars, secretVars.Keys - (todo - {k})), bundle)
        == before[k := UpdatedValue(env, secretVars, bundle, k)]
  {
    var done := Restrict(secretVars, secretVars.Keys - todo);
    RestrictGrows(secretVars, secretVars.Keys - todo, k);
    assert secretVars.Keys - (todo - {k}) == (secretVars.Keys - todo) + {k};
    UpdatedEnvStep(env, done, k, secretVars[k], bundle);
    assert UpdatedValue(env, done[k := secretVars[k]], bundle, k) == UpdatedValue(env, secretVars, bundle, k);
  }

  /** Visiting one more secret key on create overwrites just that key. */
  lemma CreatedEnvStep(env: map<string, string>, secretVars: map<string, string>, k: string, v: string, bundle: string)
    requires k !in secretVars
    ensures CreatedEnv(env, secretVars[k := v], bundle) == CreatedEnv(env, secretVars, bundle)[k := Placeholder(bundle)]
  {
    var l, r := CreatedEnv(env, secretVars[k := v], bundle), CreatedEnv(env, secretVars, bundle)[k := Placeholder(bundle)];
    assert l.Keys == r.Keys;
  }

  /** Visiting one more secret key on update decides just that key, by the three-way rule. */
  lemma UpdatedEnvStep(env: map<string, string>, secretVars: map<string, string>, k: string, v: string, bundle: string)
    requires k !in secretVars
    ensures k in UpdatedEnv(env, secretVars, bundle) <==> k in env
    ensures k in env ==> UpdatedEnv(env, secretVars, bundle)[k] == env[k]
    ensures UpdatedEnv(env, secretVars[k := v], bundle)
         == UpdatedEnv(env, secretVars, bundle)[k := UpdatedValue(env, secretVars[k := v], bundle, k)]
  {
    var l := UpdatedEnv(env, secretVars[k := v], bundle);
    var r := UpdatedEnv(env, secretVars, bundle)[k := UpdatedValue(env, secretVars[k := v], bundle, k)];
    assert l.Keys == r.Keys;
    forall j | j in l ensures l[j] == r[j] {
      if j != k {
        assert j in secretVars[k := v] <==> j in secretVars;
        if j in secretVars {
          assert UpdatedValue(env, secretVars[k := v], bundle, j) == UpdatedValue(env, secretVars, bundle, j);
        }
      }
    }
  }

  // ---------------------------------------------------------------------------
  // What the written data means
  // ---------------------------------------------------------------------------

  /** The secret holds exactly the secret keys, and each value decodes back to the submitted string. */
  lemma PayloadKeepsValues(secretVars: map<string, string>)
    ensures SecretPayload(secretVars).Keys == secretVars.Keys
    ensures forall k :: k in secretVars ==> Decode(SecretPayload(secretVars)[k]) == Some(secretVars[k])
  {
    forall k | k in secretVars
      ensures Decode(SecretPayload(secretVars)[k]) == Some(secretVars[k])
    {
      DecodeEncode(secretVars[k]);
    }
  }

  /** A secret value is empty exactly when the submitted string is. */
  lemma PayloadEmptyIff(secretVars: map<string, string>, k: string)
    requires k in secretVars
    ensures SecretPayload(secretVars)[k] == [] <==> secretVars[k] == ""
  {
  }

  /**
   * On create, the key set is the union of plain and secret keys, every secret
   * key defers to the bundle (overriding a plain entry of the same name), and
   * every other key keeps its plain value.
   */
  lemma CreatedEnvShape(env: map<string, string>, secretVars: map<string, string>, bundle: string)
    ensures CreatedEnv(env, secretVars, bundle).Keys == env.Keys + secretVars.Keys
    ensures forall k :: k in secretVars ==> ReferencedBundle(CreatedEnv(env, secretVars, bundle)[k]) == Some(bundle)
    ensures forall k :: k in env && k !in secretVars ==> CreatedEnv(env, secretVars, bundle)[k] == env[k]
  {
    PlaceholderRefersToBundle(bundle);
  }

  /** The bundle created from a form has every secret key linked from its config map. */
  lemma CreatedBundleLinked(env: map<string, string>, secretVars: map<string, string>, bundle: string)
    ensures SecretKeysLinked(CreatedEnv(env, secretVars, bundle), SecretPayload(secretVars), bundle)
  {
    PlaceholderRefersToBundle(bundle);
  }

  /**
   * Every placeholder in the created config map is backed by the secret exactly
   * when no plain variable outside the secret keys already held that placeholder.
   */
  lemma CreatedBundleBackedIff(env: map<string, string>, secretVars: map<string, string>, bundle: string)
    ensures PlaceholdersBacked(CreatedEnv(env, secretVars, bundle), SecretPayload(secretVars), bundle)
        <==> (forall k :: k in env && k !in secretVars ==> ReferencedBundle(env[k]) != Some(bundle))
  {
    var written := CreatedEnv(env, secretVars, bundle);
    if forall k :: k in env && k !in secretVars ==> ReferencedBundle(env[k]) != Some(bundle) {
      forall k | k in written && ReferencedBundle(written[k]) == Some(bundle)
        ensures k in SecretPayload(secretVars)
      {
      }
    } else {
      var k :| k in env && k !in secretVars && ReferencedBundle(env[k]) == Some(bundle);
      assert written[k] == env[k];
    }
  }

  /** The update rule, key by key: the three cases of the handler and the untouched plain keys. */
  lemma UpdatedEnvShape(env: map<string, string>, secretVars: map<string, string>, bundle: string)
    ensures UpdatedEnv(env, secretVars, bundle).Keys == env.Keys + secretVars.Keys
    ensures forall k :: k in secretVars && secretVars[k] == "" && k !in env ==>
      UpdatedEnv(env, secretVars, bundle)[k] == ""
    ensures forall k :: k in secretVars && secretVars[k] != "" ==>
      ReferencedBundle(UpdatedEnv(env, secretVars, bundle)[k]) == Some(bundle)
    ensures forall k :: k in secretVars && secretVars[k] == "" && k in env ==>
      UpdatedEnv(env, secretVars, bundle)[k] == env[k]
    ensures forall k :: k in env && k !in secretVars ==> UpdatedEnv(env, secretVars, bundle)[k] == env[k]
  {
    PlaceholderRefersToBundle(bundle);
  }

  /** Update and create write the same config map when no secret value is empty. */
  lemma UpdateAgreesWithCreate(env: map<string, string>, secretVars: map<string, string>, bundle: string)
    requires forall k :: k in secretVars ==> secretVars[k] != ""
    ensures UpdatedEnv(env, secretVars, bundle) == CreatedEnv(env, secretVars, bundle)
  {
    var u, c := UpdatedEnv(env, secretVars, bundle), CreatedEnv(env, secretVars, bundle);
    assert u.Keys == c.Keys;
    forall k | k in u ensures u[k] == c[k] {
    }
  }

  /**
   * An update links exactly the secret keys with a non-empty value or an
   * existing placeholder: a key submitted empty never gains a placeholder.
   */
  lemma UpdatedKeyLinkedIff(env: map<string, string>, secretVars: map<string, string>, bundle: string, k: string)
    requires k in secretVars
    ensures ReferencedBundle(UpdatedEnv(env, secretVars, bundle)[k]) == Some(bundle)
        <==> secretVars[k] != "" || (k in env && ReferencedBundle(env[k]) == Some(bundle))
  {
    PlaceholderRefersToBundle(bundle);
    if secretVars[k] == "" && k !in env {
      assert UpdatedEnv(env, secretVars, bundle)[k] == "";
      assert ReferencedBundle("") == None;
    }
  }

  // ---------------------------------------------------------------------------
  // The handlers
  // ---------------------------------------------------------------------------

  /**
   * HandleCreateConfigMap: write the secret, then the config map with the
   * placeholders. A rejected secret write leaves the cluster as it was; a
   * rejected config-map write leaves the new secret in place.
   */
  method HandleCreateConfigMap(agent: Store, form: ConfigMapForm, responses: Responses)
    returns (reply: Reply)
    modifies agent
    ensures responses.secretCall.Some? ==>
      reply == InternalError(responses.secretCall.value) &&
      agent.secrets == old(agent.secrets) && agent.configMaps == old(agent.configMaps)
    ensures responses.secretCall.None? ==>
      agent.secrets == old(agent.secrets)[KeyOf(form) := Secret(SecretPayload(form.secretEnvVariables), form.name)]
    ensures responses.secretCall.None? && responses.configMapCall.Some? ==>
      reply == InternalError(responses.configMapCall.value) && agent.configMaps == old(agent.configMaps)
    ensures responses.secretCall.None? && responses.configMapCall.None? ==>
      var env := CreatedEnv(form.envVariables, form.secretEnvVariables, form.name);
      reply == Written(form.(envVariables := env)) &&
      agent.configMaps == old(agent.configMaps)[KeyOf(form) := env]
    ensures responses.secretCall.None? && responses.configMapCall.None? ==>
      KeyOf(form) in agent.secrets && KeyOf(form) in agent.configMaps &&
      agent.secrets[KeyOf(form)].linkedConfigMap == form.name &&
      SecretKeysLinked(agent.configMaps[KeyOf(form)], agent.secrets[KeyOf(form)].data, form.name)
  {
    CreatedBundleLinked(form.envVariables, form.secretEnvVariables, form.name);
    var secretData := BuildSecretData(form.secretEnvVariables);
    var err := agent.CreateLinkedSecret(form.name, form.namespace, form.name, secretData, responses.secretCall);
    if err.Some? {
      return InternalError(err.value);
    }
    var env := SubstitutePlaceholders(form.envVariables, form.secretEnvVariables, form.name);
    err := agent.CreateConfigMap(form.name, form.namespace, env, responses.configMapCall);
    if err.Some? {
      return InternalError(err.value);
    }
    reply := Written(form.(envVariables := env));
  }

  /**
   * HandleUpdateConfigMap: the same order as create, with the three-way rule in
   * place of unconditional placeholders.
   */
  method HandleUpdateConfigMap(agent: Store, form: ConfigMapForm, responses: Responses)
    returns (reply: Reply)
    modifies agent
    ensures responses.secretCall.Some? ==>
      reply == InternalError(responses.secretCall.value) &&
      agent.secrets == old(agent.secrets) && agent.configMaps == old(agent.configMaps)
    ensures responses.secretCall.None? ==>
      agent.secrets == old(agent.secrets)[KeyOf(form) := Secret(SecretPayload(form.secretEnvVariables), form.name)]
    ensures responses.secretCall.None? && responses.configMapCall.Some? ==>
      reply == InternalError(responses.configMapCall.value) && agent.configMaps == old(agent.configMaps)
    ensures responses.secretCall.None? && responses.configMapCall.None? ==>
      var env := UpdatedEnv(form.envVariables, form.secretEnvVariables, form.name);
      reply == Written(form.(envVariables := env)) &&
      agent.configMaps == old(agent.configMaps)[KeyOf(form) := env]
  {
    var secretData := BuildSecretData(form.secretEnvVariables);
    var err := agent.UpdateLinkedSecret(form.name, form.namespace, form.name, secretData, responses.secretCall);
    if err.Some? {
      return InternalError(err.value);
    }
    var env := ApplySecretUpdates(form.envVariables, form.secretEnvVariables, form.name);
    err := agent.UpdateConfigMap(form.name, form.namespace, env, responses.configMapCall);
    if err.Some? {
      return InternalError(err.value);
    }
    reply := Written(form.(envVariables := env));
  }

  /**
   * HandleDeleteConfigMap: delete the secret, then the config map. A rejected
   * secret delete leaves both in place; a rejected config-map delete leaves the
   * secret deleted.
   */
  method HandleDeleteConfigMap(agent: Store, name: string, namespace: string, responses: Responses)
    returns (reply: Reply)
    modifies agent
    ensures responses.secretCall.Some? ==>
      reply == InternalError(responses.secretCall.value) &&
      agent.secrets == old(agent.secrets) && agent.configMaps == old(agent.configMaps)
    ensures responses.secretCall.None? ==>
      agent.secrets == old(agent.secrets) - {ResourceKey(namespace, name)}
    ensures responses.secretCall.None? && responses.configMapCall.Some? ==>
      reply == InternalError(responses.configMapCall.value) && agent.configMaps == old(agent.configMaps)
    ensures responses.secretCall.None? && responses.configMapCall.None? ==>
      reply == Deleted && agent.configMaps == old(agent.configMaps) - {ResourceKey(namespace, name)}
  {
    var err := agent.DeleteLinkedSecret(name, namespace, responses.secretCall);
    if err.Some? {
      return InternalError(err.value);
    }
    err := agent.DeleteConfigMap(name, namespace, responses.configMapCall);
    if err.Some? {
      return InternalError(err.value);
    }
    reply := Deleted;
  }

  /**
   * A create and then a delete that the cluster both accept: each map is as it
   * was before, less the bundle's address.
   */
  method CreateThenDelete(agent: Store, form: ConfigMapForm)
    modifies agent
    ensures agent.secrets == old(agent.secrets) - {KeyOf(form)}
    ensures agent.configMaps == old(agent.configMaps) - {KeyOf(form)}
  {
    var reply := HandleCreateConfigMap(agent, form, Responses(None, None));
    reply := HandleDeleteConfigMap(agent, form.name, form.namespace, Responses(None, None));
  }

  /**
   * The update rule reads only the request: a placeholder stored for a key that
   * the request sends with an empty secret value and no plain entry becomes "".
   */
  method EmptyUpdateDropsStoredPlaceholder(agent: Store, form: ConfigMapForm, k: string)
    requires KeyOf(form) in agent.configMaps && k in agent.configMaps[KeyOf(form)]
    requires agent.configMaps[KeyOf(form)][k] == Placeholder(form.name)
    requires k in form.secretEnvVariables && form.secretEnvVariables[k] == "" && k !in form.envVariables
    modifies agent
    ensures KeyOf(form) in agent.configMaps && k in agent.configMaps[KeyOf(form)]
    ensures agent.configMaps[KeyOf(form)][k] == ""
  {
    var reply := HandleUpdateConfigMap(agent, form, Responses(None, None));
    UpdatedEnvShape(form.envVariables, form.secretEnvVariables, form.name);
  }
}
