# Linked environment bundles in Porter's Kubernetes handlers

This project models the part of Porter's API server (`server/api/k8s_handler.go`)
that manages **linked environment bundles**, plus two smaller handlers next to it.
A bundle is a config map and a secret with the same name and namespace. The
plain variables are stored in the config map. Each secret variable is stored in
the secret, and its key in the config map holds the placeholder
`PORTERSECRET_<bundle name>`.

- `EnvBundle.HandleCreateConfigMap` and `EnvBundle.HandleUpdateConfigMap` build
  the secret data from the secret variables. They write the secret, then write
  the config map with the placeholder rule, and stop at the first call the
  cluster rejects. On create every secret key gets the placeholder. On update
  each secret key follows a three-way rule:
  - empty value, key absent from the request's plain variables: the key is written with `""`;
  - non-empty value: the key gets the placeholder;
  - empty value, key present in the request's plain variables: that submitted value is kept.

  The rule reads only the request. The config map already stored in the cluster is never read.
- `EnvBundle.HandleDeleteConfigMap` deletes the secret, then the config map.
- `PodListing.ListPods` is the loop of `HandleListPods`. It queries each label
  selector in order and appends every returned pod.
- `JobOwnership.ListJobsByChart` lists a release's jobs with the two-label
  ownership selector `helm.sh/chart = chart`, `meta.helm.sh/release-name = release`.

The cluster is the class `Cluster.Store`. It holds two maps keyed by
(namespace, name): secrets (byte data plus the name of the linked config map)
and config maps (string data). Each Agent call the handlers make is a method of
the store. The call takes the cluster's answer as an argument: `None` means the
call is accepted, `Some(e)` means it is rejected with error `e`. An accepted
write changes one entry of one map. A rejected call changes nothing. What the
handlers send back is `EnvBundle.Reply`. It is either the form that was written
(the JSON body of the Go handler), a bare success (delete), or the cluster's
error. In the three bundle handlers, every rejected Agent call is reported through `handleErrorInternal` (server/api/k8s_handler.go:135, 147, 296, 303, 369, 386).

Go's `[]byte(s)` yields the bytes of `s`. These are UTF-8, because encoding/json always decodes to valid UTF-8 (invalid input becomes U+FFFD). So a string of Unicode scalar values loses nothing. The module `Utf8` defines that
encoding (`Utf8.Encode`) and a decoder (`Utf8.Decode`). It proves that decoding
the bytes gives back the string, so a secret value is the raw bytes of the
submitted string. The base64 step in the source is commented out, and the model
has no base64 step.

Specification functions: `EnvBundle.SecretPayload`, `EnvBundle.CreatedEnv`,
`EnvBundle.UpdatedEnv` (per key: `EnvBundle.UpdatedValue`),
`PodListing.Collect` and `JobOwnership.OwnershipSelector`. Each loop method is
proved equal to its specification function. The lemmas then state what the
specification means.

The model follows the code in four places where a reader might expect something else:
- Pod listing does not deduplicate. A pod returned by two selectors, or by one
  selector named twice, is listed twice (`PodListing.RepeatedSelectorRepeatsPods`).
- Delete is not idempotent in the handler. Any error from the Agent's delete
  call, including one for an absent resource, is reported as a failure. Whether
  the Agent treats "not found" as success is not part of this model.
- An update with an empty value never introduces a placeholder. It keeps the value of that key in the request's plain variables, if there is one.
- An update never reads the config map stored in the cluster. Suppose the stored config map holds a placeholder for a key, and the request sends that key with an empty secret value and without a plain entry. The placeholder is then replaced by `""` (`EnvBundle.EmptyUpdateDropsStoredPlaceholder`).

## Model

| member | source | states |
|---|---|---|
| Utf8.Encode | server/api/k8s_handler.go:128 | the bytes of a string are at least one and at most four per character, and are empty exactly when the string is |
| Utf8.DecodeEncode | server/api/k8s_handler.go:128 | decoding the bytes stored for a secret value gives back the submitted string: the conversion is raw UTF-8 and loses nothing |
| Utf8.EncodeInjective | server/api/k8s_handler.go:362 | two different secret values never produce the same stored bytes |
| Utf8.EncodeAscii | server/api/k8s_handler.go:362 | for ASCII values the stored bytes are the character codes themselves, with no base64 encoding |
| Cluster.Store.constructor | server/api/k8s_handler.go:102-109 | the agent a handler obtains works on the cluster as it stands: the store holds exactly the given secrets and config maps (how the agent is obtained is left out) |
| Cluster.Store.CreateLinkedSecret | server/api/k8s_handler.go:132 | an accepted call stores the secret data and its config-map link at (namespace, name); a rejected one changes nothing; config maps are untouched |
| Cluster.Store.UpdateLinkedSecret | server/api/k8s_handler.go:366 | an accepted call replaces the secret at (namespace, name) with the new data and link; a rejected one changes nothing; config maps are untouched |
| Cluster.Store.DeleteLinkedSecret | server/api/k8s_handler.go:293 | an accepted call removes the secret at (namespace, name); a rejected one changes nothing; config maps are untouched |
| Cluster.Store.CreateConfigMap | server/api/k8s_handler.go:144 | an accepted call stores the config-map data at (namespace, name); a rejected one changes nothing; secrets are untouched |
| Cluster.Store.UpdateConfigMap | server/api/k8s_handler.go:383 | an accepted call replaces the config-map data at (namespace, name); a rejected one changes nothing; secrets are untouched |
| Cluster.Store.DeleteConfigMap | server/api/k8s_handler.go:300 | an accepted call removes the config map at (namespace, name); a rejected one changes nothing; secrets are untouched |
| EnvBundle.Placeholder | server/api/k8s_handler.go:141 | the placeholder is the prefix `PORTERSECRET_` followed by exactly the bundle name, as written on create and on update (:379) |
| EnvBundle.ReferencedBundle | server/api/k8s_handler.go:141 | reading a config-map value as a placeholder: when it names a bundle the value is that bundle's placeholder, otherwise no bundle's placeholder equals it |
| EnvBundle.PlaceholderRefersToBundle | server/api/k8s_handler.go:141 | the placeholder written for a bundle refers back to exactly that bundle |
| EnvBundle.BuildSecretData | server/api/k8s_handler.go:118-129 | the secret-data loop, in any iteration order, builds exactly the payload: one entry per secret variable holding its bytes |
| EnvBundle.PayloadKeepsValues | server/api/k8s_handler.go:118-129 | the payload has exactly the keys of the secret variables and each value decodes back to the submitted string |
| EnvBundle.PayloadEmptyIff | server/api/k8s_handler.go:352-363 | a stored secret value is empty exactly when the submitted value is empty |
| EnvBundle.SubstitutePlaceholders | server/api/k8s_handler.go:139-142 | the create loop, in any iteration order, produces the config map of the create rule |
| EnvBundle.CreatedEnvShape | server/api/k8s_handler.go:139-142 | on create, the keys are the union of plain and secret keys; every secret key refers to the bundle, overriding a plain entry of that key; other keys keep their plain values |
| EnvBundle.CreatedBundleLinked | server/api/k8s_handler.go:131-144 | after create, every key of the written secret has a placeholder naming the bundle in the written config map |
| EnvBundle.CreatedBundleBackedIff | server/api/k8s_handler.go:131-144 | every placeholder for the bundle in the created config map has a secret key, exactly when no plain variable outside the secret keys already held that placeholder |
| EnvBundle.ApplySecretUpdates | server/api/k8s_handler.go:373-381 | the update loop, in any iteration order, produces the config map of the update rule; presence of a key is checked against the map being updated, and that check agrees with the submitted plain variables |
| EnvBundle.UpdatedEnvShape | server/api/k8s_handler.go:374-381 | on update: an empty value with the key absent writes `""`; a non-empty value writes a placeholder naming the bundle; an empty value with the key present in the submitted plain variables keeps that submitted value; other keys are unchanged; keys are the union |
| EnvBundle.UpdateAgreesWithCreate | server/api/k8s_handler.go:139-142 | when no secret value is empty, update writes the same config map as create |
| EnvBundle.UpdatedKeyLinkedIff | server/api/k8s_handler.go:374-381 | after update a secret key refers to the bundle exactly when its value is non-empty or it already referred to the bundle in the submitted plain variables; an empty value never introduces a placeholder |
| EnvBundle.HandleCreateConfigMap | server/api/k8s_handler.go:118-158 | secret first: a rejected secret write changes nothing; an accepted one stores the payload, linked by the bundle's own name at the same address; a rejected config-map write keeps the secret and leaves config maps as they were; full success stores the create-rule config map and returns it, and leaves a linked bundle: secret and config map at the same address, the secret linked to the config map of the bundle's name, every secret key holding a placeholder naming the bundle |
| EnvBundle.HandleUpdateConfigMap | server/api/k8s_handler.go:352-397 | the same order and failure cases as create, with the update rule for the config map |
| EnvBundle.HandleDeleteConfigMap | server/api/k8s_handler.go:293-309 | secret first: a rejected secret delete leaves both in place; a rejected config-map delete leaves the secret deleted and the config maps unchanged; full success removes both |
| EnvBundle.EmptyUpdateDropsStoredPlaceholder | server/api/k8s_handler.go:374-383 | at any address and key, a stored placeholder naming the bundle is replaced by `""` when an accepted update sends that key with an empty secret value and without a plain entry, because the update rule reads only the request |
| EnvBundle.CreateThenDelete | server/api/k8s_handler.go:293-305 | a fully accepted create followed by a fully accepted delete returns both maps to their earlier state with the bundle's address removed |
| PodListing.ListPods | server/api/k8s_handler.go:616-628 | the nested loop returns exactly the listing of the selectors in order, stopping at the first failed query |
| PodListing.FailureAbsorbs | server/api/k8s_handler.go:618-622 | once a query has failed, no later selector changes the outcome |
| PodListing.CollectSucceedsIff | server/api/k8s_handler.go:616-628 | a list is produced exactly when every selector's query succeeds |
| PodListing.CollectReportsFirstFailure | server/api/k8s_handler.go:618-622 | the error reported is that of the first selector whose query fails |
| PodListing.CollectAppend | server/api/k8s_handler.go:616-628 | the pods of earlier selectors come before those of later ones: the listing of two runs is the concatenation of their listings |
| PodListing.CollectKeepsDuplicates | server/api/k8s_handler.go:624-626 | each pod appears as many times as the answers hold it, so nothing is dropped or deduplicated |
| PodListing.RepeatedSelectorRepeatsPods | server/api/k8s_handler.go:617-627 | naming one selector twice lists its pods twice |
| JobOwnership.OwnershipSelector | server/api/k8s_handler.go:675-681 | the selector is exactly two labels with distinct keys: `helm.sh/chart` = chart and `meta.helm.sh/release-name` = release name |
| JobOwnership.ListJobsByChart | server/api/k8s_handler.go:675-686 | a rejected listing is reported with the cluster's error and nothing else; an accepted one returns no more jobs than the namespace holds |
| JobOwnership.ListJobsByLabel | server/api/k8s_handler.go:675 | the listing holds exactly the jobs of the namespace that carry every label of the selector, and no more jobs than the namespace holds |
| JobOwnership.OwnershipSelectorMatchesIff | server/api/k8s_handler.go:675-681 | the ownership selector matches a label set exactly when it has `helm.sh/chart` = chart and `meta.helm.sh/release-name` = release name |
| JobOwnership.ListedForReleaseIff | server/api/k8s_handler.go:675-686 | a job is listed for a release exactly when it is in the namespace and carries both labels |
| JobOwnership.OneLabelIsNotOwnership | server/api/k8s_handler.go:675-681 | a job with only the chart label, or only the release label, is not listed |

## Left out

- HTTP plumbing is not modelled: query and body decoding, form validation, JSON encoding of replies and status writes. The `vals["name"][0]` lookups, which fail when the query parameter is missing, are part of this.
- Agent construction is not modelled: `Cluster.Store.constructor` only takes the cluster's current maps. Left out are the test-agent branch and `GetAgentOutOfClusterConfig`, whose error is overwritten by the next assignment. This is credential I/O, and its code is not part of this model.
- The Agent's own implementations (`CreateLinkedSecret`, `UpdateConfigMap`, `GetPodsByLabel`, `ListJobsByLabel`, ...) are not part of this model. The store stands in for them: an accepted call sets or removes one entry, and a rejected call changes nothing. The model has no retries, no idempotent delete, no merging of secret data on update, and no "already exists" or "not found" rules.
- Cluster.Store.UpdateLinkedSecret: it replaces the secret's data with the new payload. Whether the Agent merges data or skips empty values is not visible.
- PodListing.ListPods: the query is a function of the selector, so two queries of the same selector get the same answer. The model does not parse selector strings and does not represent which pods the cluster holds.
- JobOwnership.ListJobsByLabel: it gives the usual meaning of an equality label selector (every label present with its value) in place of the cluster's answer. The Agent code that renders the labels into a selector string is not part of this model.
- The form's `EnvVariables` map is always present in the model. In Go a request body without it decodes to a nil map. If `SecretEnvVariables` is non-empty, the placeholder loop then panics after the secret was written (:141 on create, :377 or :379 on update). With no secret variables the nil map goes straight to `CreateConfigMap` or `UpdateConfigMap` and nothing panics. `forms.ConfigMapForm` is not part of this model, so this case is not modelled.
- Other writers to the cluster are not modelled. Each handler's contract assumes the store changes only through that handler's own two calls. Another client writing between the secret call (:132, :366) and the config-map call (:144, :383), in any interleaving, is not captured.
- Websocket log and status streaming, job stop through the sidecar, the Prometheus endpoints and temporary kubeconfig generation are not modelled. They are network I/O or calls into code that is not shown.
- `server/api/deploy_handler.go` and the dashboard files are not modelled. They are Helm installation, database writes and UI rendering.
