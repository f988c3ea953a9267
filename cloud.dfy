/**
 * dashboard/app_utils/cloud.py: the Google Cloud service-account record
 * built from four environment variables and seven fixed fields, and the two
 * places that need it (a signed URL for a blob, and a bucket handle). The
 * environment is a map from variable name to value; a name that is not in
 * the map is unset, which is what os.getenv reports as None.
 */
module Cloud {
  import opened Wrappers

  /** The process environment after the .env file has been loaded. */
  type Env = map<string, string>

  /** os.getenv: None when the variable is unset; an empty string is a value like any other. */
  function GetEnv(env: Env, name: string): (v: Option<string>)
    ensures v.None? <==> name !in env
    ensures v.Some? ==> v.value == env[name]
  {
    if name in env then Some(env[name]) else None
  }

  /** The private fields of the credential record and the variables they come from, in dict order. */
  const PrivateFields: seq<(string, string)> := [
    ("private_key_id", "SP_PRIVATE_KEY_ID"),
    ("private_key", "SP_PRIVATE_KEY"),
    ("client_email", "SP_CLIENT_EMAIL"),
    ("client_id", "SP_CLIENT_ID")]

  /** The fields every credential record carries whatever the environment says. */
  const FixedCredentials: map<string, string> := map[
    "type" := "service_account",
    "project_id" := "sy-bat",
    "auth_uri" := "https://accounts.google.com/o/oauth2/auth",
    "token_uri" := "https://oauth2.googleapis.com/token",
    "auth_provider_x509_cert_url" := "https://www.googleapis.com/oauth2/v1/certs",
    "client_x509_cert_url" := "https://www.googleapis.com/robot/v1/metadata/x509/shinyapp%40sy-bat.iam.gserviceaccount.com",
    "universe_domain" := "googleapis.com"]

  /** What can stop the cloud helpers. */
  datatype CloudError =
    | MissingEnvVar(key: string)   // ValueError from gc_credentials_dict; `key` is the record field, not the variable
    | BlobNotFound(name: string)   // bucket.get_blob gave None, so signing it fails

  /** The ValueError's message. */
  function ErrorMessage(e: CloudError): (msg: string)
    requires e.MissingEnvVar?
    ensures |msg| == |e.key| + 33
    ensures msg[..21] == "Environment variable " && msg[|msg| - 12..] == " is not set."
    ensures msg[21..|msg| - 12] == e.key
  {
    "Environment variable " + e.key + " is not set."
  }

  /** The index of the first private field whose variable is unset, if any. */
  function FirstMissing(env: Env, fields: seq<(string, string)>): (r: Option<nat>)
    ensures r.None? <==> forall j :: 0 <= j < |fields| ==> fields[j].1 in env
    ensures r.Some? ==> r.value < |fields| && fields[r.value].1 !in env &&
                        forall j :: 0 <= j < r.value ==> fields[j].1 in env
  {
    if fields == [] then None
    else if fields[0].1 !in env then Some(0)
    else
      var rest := FirstMissing(env, fields[1..]);
      assert forall j :: 1 <= j < |fields| ==> fields[j] == fields[1..][j - 1];
      if rest.None? then None else Some(rest.value + 1)
  }

  /** The first `n` private fields, each mapped to its variable's value, in dict order. */
  function PrivateCredentials(env: Env, fields: seq<(string, string)>, n: nat): map<string, string>
    requires n <= |fields| && forall j :: 0 <= j < n ==> fields[j].1 in env
  {
    if n == 0 then map[]
    else PrivateCredentials(env, fields, n - 1)[fields[n - 1].0 := env[fields[n - 1].1]]
  }

  /** The record gc_credentials_dict returns, or the error it raises. */
  function CredentialsSpec(env: Env): (r: Result<map<string, string>, CloudError>)
  {
    var missing := FirstMissing(env, PrivateFields);
    if missing.Some? then Failure(MissingEnvVar(PrivateFields[missing.value].0))
    else Success(FixedCredentials + PrivateCredentials(env, PrivateFields, |PrivateFields|))
  }

  /**
   * gc_credentials_dict: check the private values one by one, stopping at
   * the first unset one, then overlay them on the fixed record.
   */
  method GcCredentialsDict(env: Env) returns (r: Result<map<string, string>, CloudError>)
    ensures r == CredentialsSpec(env)
  {
    var privateCredentials := seq(|PrivateFields|, i requires 0 <= i < |PrivateFields| =>
                                    (PrivateFields[i].0, GetEnv(env, PrivateFields[i].1)));
    assert forall i :: 0 <= i < |privateCredentials| ==>
      privateCredentials[i].0 == PrivateFields[i].0 && privateCredentials[i].1 == GetEnv(env, PrivateFields[i].1);
    var checked: map<string, string> := map[];
    for i := 0 to |privateCredentials|
      invariant forall j :: 0 <= j < i ==> PrivateFields[j].1 in env
      invariant checked == PrivateCredentials(env, PrivateFields, i)
    {
      var (key, value) := privateCredentials[i];
      if value.None? {
        assert FirstMissing(env, PrivateFields) == Some(i);
        return Failure(MissingEnvVar(key));
      }
      checked := checked[key := value.value];
    }
    // credentials.update(private_credentials): every value is set by now
    var credentials := FixedCredentials + checked;
    return Success(credentials);
  }

  /** The private dict built from the first `n` fields has exactly their field names as keys. */
  lemma {:induction false} PrivateCredentialsFieldNames(env: Env, fields: seq<(string, string)>, n: nat)
    requires n <= |fields| && forall j :: 0 <= j < n ==> fields[j].1 in env
    ensures PrivateCredentials(env, fields, n).Keys == set j | 0 <= j < n :: fields[j].0
  {
    if n > 0 {
      PrivateCredentialsFieldNames(env, fields, n - 1);
      var before := set j | 0 <= j < n - 1 :: fields[j].0;
      var after := set j | 0 <= j < n :: fields[j].0;
      assert after == before + {fields[n - 1].0} by {
        forall x | x in after ensures x in before + {fields[n - 1].0} {
          var j :| 0 <= j < n && fields[j].0 == x;
          if j < n - 1 {
            assert x in before;
          }
        }
      }
    }
  }

  /**
   * The record is refused exactly when one of the four variables is unset,
   * and the error names the first such field in the order private_key_id,
   * private_key, client_email, client_id.
   */
  lemma CredentialsRefusedIffUnset(env: Env)
    ensures CredentialsSpec(env).Failure? <==> exists i :: 0 <= i < |PrivateFields| && PrivateFields[i].1 !in env
    ensures CredentialsSpec(env).Failure? ==>
      exists i :: 0 <= i < |PrivateFields| && PrivateFields[i].1 !in env &&
        CredentialsSpec(env).error == MissingEnvVar(PrivateFields[i].0) &&
        forall j :: 0 <= j < i ==> PrivateFields[j].1 in env
  {
  }

  /** With SP_PRIVATE_KEY_ID set but SP_PRIVATE_KEY unset, the error names private_key, whatever else is missing. */
  lemma SecondFieldMissing(env: Env)
    requires "SP_PRIVATE_KEY_ID" in env && "SP_PRIVATE_KEY" !in env
    ensures CredentialsSpec(env) == Failure(MissingEnvVar("private_key"))
  {
    var missing := FirstMissing(env, PrivateFields);
    assert PrivateFields[0].1 in env && PrivateFields[1].1 !in env;
    assert missing.Some? && missing.value != 0;
    assert missing.value == 1;
  }

  /** Only an unset variable is refused: four empty strings make a valid record. */
  lemma EmptyValuesAccepted(env: Env)
    requires forall i :: 0 <= i < |PrivateFields| ==> PrivateFields[i].1 in env && env[PrivateFields[i].1] == ""
    ensures CredentialsSpec(env).Success?
    ensures forall i :: 0 <= i < |PrivateFields| ==>
      PrivateFields[i].0 in CredentialsSpec(env).value && CredentialsSpec(env).value[PrivateFields[i].0] == ""
  {
    CredentialsPrivateValues(env);
  }

  /** An accepted record has the seven fixed fields and the four private ones. */
  lemma CredentialsKeys(env: Env)
    requires CredentialsSpec(env).Success?
    ensures CredentialsSpec(env).value.Keys ==
      FixedCredentials.Keys + {"private_key_id", "private_key", "client_email", "client_id"}
  {
    PrivateCredentialsKeys(env);
  }

  /** In an accepted record each private field holds its variable's value. */
  lemma CredentialsPrivateValues(env: Env)
    requires CredentialsSpec(env).Success?
    ensures forall i :: 0 <= i < |PrivateFields| ==>
      PrivateFields[i].0 in CredentialsSpec(env).value && CredentialsSpec(env).value[PrivateFields[i].0] == env[PrivateFields[i].1]
  {
    PrivateCredentialsValues(env, PrivateFields, |PrivateFields|);
  }

  /** The record is always for the sy-bat service account: no variable can override type or project. */
  lemma CredentialsFixedFields(env: Env)
    requires CredentialsSpec(env).Success?
    ensures CredentialsSpec(env).value["type"] == "service_account"
    ensures CredentialsSpec(env).value["project_id"] == "sy-bat"
  {
    PrivateCredentialsKeys(env);
    OverlayKeepsFixedFields(PrivateCredentials(env, PrivateFields, |PrivateFields|));
  }

  /** Overlaying a dict without type and project_id keeps the fixed ones. */
  lemma OverlayKeepsFixedFields(p: map<string, string>)
    requires p.Keys == {"private_key_id", "private_key", "client_email", "client_id"}
    ensures (FixedCredentials + p)["type"] == "service_account"
    ensures (FixedCredentials + p)["project_id"] == "sy-bat"
  {
    assert "type" !in p && "project_id" !in p;
  }

  /** The private part of an accepted record has exactly the four private fields. */
  lemma PrivateCredentialsKeys(env: Env)
    requires CredentialsSpec(env).Success?
    ensures PrivateCredentials(env, PrivateFields, |PrivateFields|).Keys ==
      {"private_key_id", "private_key", "client_email", "client_id"}
  {
    assert PrivateCredentials(env, PrivateFields, 1).Keys == {"private_key_id"};
    assert PrivateCredentials(env, PrivateFields, 2).Keys == {"private_key_id", "private_key"};
    assert PrivateCredentials(env, PrivateFields, 3).Keys == {"private_key_id", "private_key", "client_email"};
  }

  /** Each of the first `n` private fields holds its variable's value (the field names are distinct). */
  lemma {:induction false} PrivateCredentialsValues(env: Env, fields: seq<(string, string)>, n: nat)
    requires n <= |fields| && forall j :: 0 <= j < n ==> fields[j].1 in env
    requires forall j, l :: 0 <= j < l < n ==> fields[j].0 != fields[l].0
    ensures forall j :: 0 <= j < n ==>
      fields[j].0 in PrivateCredentials(env, fields, n) && PrivateCredentials(env, fields, n)[fields[j].0] == env[fields[j].1]
  {
    if n > 0 {
      PrivateCredentialsValues(env, fields, n - 1);
      PrivateCredentialsFieldNames(env, fields, n - 1);
    }
  }

  /** A storage client; it only exists once the credentials have been accepted. */
  datatype StorageClient = StorageClient(projectId: string, credentials: map<string, string>)

  /** What blob.generate_signed_url is asked for: which blob, and until when the URL is valid. */
  datatype SignRequest = SignRequest(client: StorageClient, bucketName: string, blobName: string, expiration: int)

  /**
   * generate_signed_url. `now` is the current UTC time in seconds and
   * `blobs` the names of the blobs in the bucket. The credentials are
   * checked before a client is made; the URL expires
   * `expirationTimeSeconds` (60 unless given) after `now`.
   */
  method GenerateSignedUrl(env: Env, blobs: set<string>, now: int, bucketName: string, blobName: string,
                           expirationTimeSeconds: int := 60)
    returns (r: Result<SignRequest, CloudError>)
    ensures CredentialsSpec(env).Failure? ==> r == Failure(CredentialsSpec(env).error)
    ensures CredentialsSpec(env).Success? && blobName !in blobs ==> r == Failure(BlobNotFound(blobName))
    ensures r.Success? <==> CredentialsSpec(env).Success? && blobName in blobs
    ensures r.Success? ==>
      r.value.expiration == now + expirationTimeSeconds &&
      r.value.bucketName == bucketName && r.value.blobName == blobName &&
      r.value.client == StorageClient("sy-bat", CredentialsSpec(env).value)
  {
    var gcCredentials := GcCredentialsDict(env);
    if gcCredentials.Failure? {
      return Failure(gcCredentials.error);
    }
    CredentialsFixedFields(env);
    var projectId := gcCredentials.value["project_id"];
    var client := StorageClient(projectId, gcCredentials.value);
    var expirationTime := now + expirationTimeSeconds;
    if blobName !in blobs {
      return Failure(BlobNotFound(blobName));
    }
    return Success(SignRequest(client, bucketName, blobName, expirationTime));
  }

  /** A handle on one bucket; its fields are set once by the constructor. */
  datatype CloudBucket = CloudBucket(bucketName: string, projectId: string, client: StorageClient)

  /** CloudBucket(bucket_name): the credentials are checked before the client is made. */
  method OpenCloudBucket(env: Env, bucketName: string) returns (r: Result<CloudBucket, CloudError>)
    ensures r.Failure? <==> CredentialsSpec(env).Failure?
    ensures r.Failure? ==> r.error == CredentialsSpec(env).error
    ensures r.Success? ==> r.value.bucketName == bucketName && r.value.projectId == "sy-bat" &&
                           r.value.client.credentials == CredentialsSpec(env).value
  {
    var credentials := GcCredentialsDict(env);
    if credentials.Failure? {
      return Failure(credentials.error);
    }
    CredentialsFixedFields(env);
    var projectId := credentials.value["project_id"];
    var client := StorageClient(projectId, credentials.value);
    return Success(CloudBucket(bucketName, projectId, client));
  }
}
