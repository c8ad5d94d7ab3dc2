/**
 * The cluster as the handlers see it through the Agent: config maps and
 * secrets, each addressed by namespace and name. Whether the cluster accepts a
 * call is not decided here; every Agent call takes the cluster's answer as an
 * argument (`None` accepts, `Some(e)` rejects with `e`). An accepted write
 * replaces one entry of one map; a rejected call changes nothing.
 */
module Cluster {
  import opened Wrappers
  import opened Utf8

  /** A cluster object's address. */
  datatype ResourceKey = ResourceKey(namespace: string, name: string)

  /** A secret: its data and the name of the config map it is linked to. */
  datatype Secret = Secret(data: map<string, seq<byte>>, linkedConfigMap: string)

  /** An error returned by the cluster API. */
  datatype AgentError = AgentError(message: string)

  class Store {
    var secrets: map<ResourceKey, Secret>
    var configMaps: map<ResourceKey, map<string, string>>

    /** An agent over the cluster as it stands: the given secrets and config maps. */
    constructor (secrets: map<ResourceKey, Secret>, configMaps: map<ResourceKey, map<string, string>>)
      ensures this.secrets == secrets && this.configMaps == configMaps
    {
      this.secrets := secrets;
      this.configMaps := configMaps;
    }

    method CreateLinkedSecret(name: string, namespace: string, cmName: string,
                              data: map<string, seq<byte>>, response: Option<AgentError>)
      returns (err: Option<AgentError>)
      modifies this
      ensures err == response
      ensures secrets == if response.None?
                         then old(secrets)[ResourceKey(namespace, name) := Secret(data, cmName)]
                         else old(secrets)
      ensures configMaps == old(configMaps)
    {
      err := response;
      if response.None? {
        secrets := secrets[ResourceKey(namespace, name) := Secret(data, cmName)];
      }
    }

    /** The new body replaces the secret's data; the Agent's own merge rules are not modelled. */
    method UpdateLinkedSecret(name: string, namespace: string, cmName: string,
                              data: map<string, seq<byte>>, response: Option<AgentError>)
      returns (err: Option<AgentError>)
      modifies this
      ensures err == response
      ensures secrets == if response.None?
                         then old(secrets)[ResourceKey(namespace, name) := Secret(data, cmName)]
                         else old(secrets)
      ensures configMaps == old(configMaps)
    {
      err := response;
      if response.None? {
        secrets := secrets[ResourceKey(namespace, name) := Secret(data, cmName)];
      }
    }

    method DeleteLinkedSecret(name: string, namespace: string, response: Option<AgentError>)
      returns (err: Option<AgentError>)
      modifies this
      ensures err == response
      ensures secrets == if response.None?
                         then old(secrets) - {ResourceKey(namespace, name)}
                         else old(secrets)
      ensures configMaps == old(configMaps)
    {
      err := response;
      if response.None? {
        secrets := secrets - {ResourceKey(namespace, name)};
      }
    }

    method CreateConfigMap(name: string, namespace: string, data: map<string, string>,
                           response: Option<AgentError>)
      returns (err: Option<AgentError>)
      modifies this
      ensures err == response
      ensures configMaps == if response.None?
                            then old(configMaps)[ResourceKey(namespace, name) := data]
                            else old(configMaps)
      ensures secrets == old(secrets)
    {
      err := response;
      if response.None? {
        configMaps := configMaps[ResourceKey(namespace, name) := data];
      }
    }

    method UpdateConfigMap(name: string, namespace: string, data: map<string, string>,
                           response: Option<AgentError>)
      returns (err: Option<AgentError>)
      modifies this
      ensures err == response
      ensures configMaps == if response.None?
                            then old(configMaps)[ResourceKey(namespace, name) := data]
                            else old(configMaps)
      ensures secrets == old(secrets)
    {
      err := response;
      if response.None? {
        configMaps := configMaps[ResourceKey(namespace, name) := data];
      }
    }

    method DeleteConfigMap(name: string, namespace: string, response: Option<AgentError>)
      returns (err: Option<AgentError>)
      modifies this
      ensures err == response
      ensures configMaps == if response.None?
                            then old(configMaps) - {ResourceKey(namespace, name)}
                            else old(configMaps)
      ensures secrets == old(secrets)
    {
      err := response;
      if response.None? {
        configMaps := configMaps - {ResourceKey(namespace, name)};
      }
    }
  }
}
