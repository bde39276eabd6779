/** Credential precedence of `config`: direct keys when both are given,
    else a shared-ini profile, else the global credentials stay as they are.
    A missing option and an empty string are both falsy in the source, and
    are both written "" here. */
module Credentials {
  import opened Wrappers

  datatype CredentialSource =
    | Keys(accessKeyId: string, secretAccessKey: string)
    | SharedIni(profile: string)

  /** The credentials `config` builds from its options, if any. */
  function Resolve(profile: string, accessKeyId: string, secretAccessKey: string): (r: Option<CredentialSource>)
    ensures r == Some(Keys(accessKeyId, secretAccessKey)) <==> accessKeyId != "" && secretAccessKey != ""
    ensures r == Some(SharedIni(profile)) <==>
      (accessKeyId == "" || secretAccessKey == "") && profile != ""
    ensures r == None <==> (accessKeyId == "" || secretAccessKey == "") && profile == ""
  {
    if accessKeyId != "" && secretAccessKey != "" then Some(Keys(accessKeyId, secretAccessKey))
    else if profile != "" then Some(SharedIni(profile))
    else None
  }

  /** The SDK's global configuration, reduced to its credentials. */
  class SdkConfig {
    var credentials: Option<CredentialSource>

    constructor (initial: Option<CredentialSource>)
      ensures credentials == initial
    {
      credentials := initial;
    }

    /** `config({ profile, accessKeyId, secretAccessKey })`. */
    method Config(profile: string, accessKeyId: string, secretAccessKey: string)
      modifies this
      ensures accessKeyId != "" && secretAccessKey != "" ==>
        credentials == Some(Keys(accessKeyId, secretAccessKey))
      ensures (accessKeyId == "" || secretAccessKey == "") && profile != "" ==>
        credentials == Some(SharedIni(profile))
      ensures (accessKeyId == "" || secretAccessKey == "") && profile == "" ==>
        credentials == old(credentials)
    {
      var resolved := Resolve(profile, accessKeyId, secretAccessKey);
      if resolved.Some? {
        credentials := resolved;
      }
    }
  }
}
