/** The parts of the registry's configuration (common/config.go) that
    decide something: which settings file is read, which settings are
    required, the S3 bucket qualifier and the URL scheme. Reading files and
    the environment is left to the caller, which passes the settings in. */
module Config {
  import opened Wrappers

  /** The values APT_ENV may take. */
  const ALLOWED_CONFIGS: set<string> :=
    {"ci", "dev", "docker", "integration", "production", "staging", "test", "travis", "uidemo"}

  const TEST_OR_DEV_ENVS: set<string> := {"dev", "test", "ci", "travis", "integration"}

  const MIN_COOKIE_KEY_LENGTH := 32

  /** Why loading stops; the program prints Message() and exits. */
  datatype LoadError = BadEnvName | ShortCookieKey | InvalidNsqUrl
  {
    function Message(): string {
      match this
      case BadEnvName =>
        "Set APT_ENV to one of ci,dev,docker,integration,production,staging,test,travis,uidemo"
      case ShortCookieKey => "COOKIE_HASH_KEY and COOKIE_BLOCK_KEY must each be >= 32 bytes"
      case InvalidNsqUrl => "NSQ_URL is missing or invalid"
    }
  }

  /** The loaded configuration, reduced to the settings the core reads. */
  datatype Config = Config(
    envName: string,
    cookieDomain: string,
    hashKey: string,
    blockKey: string,
    nsqUrl: string,
    sesUser: string,
    sesPassword: string)
  {
    /** BucketQualifier: production has none, staging ".staging", and
        everything else, misconfigurations included, ".test". */
    function BucketQualifier(): (q: string)
      ensures q == "" <==> cookieDomain == "repo.aptrust.org"
      ensures q == ".staging" <==> cookieDomain == "staging.aptrust.org"
      ensures q == ".test" <==> cookieDomain !in {"repo.aptrust.org", "staging.aptrust.org"}
    {
      if cookieDomain == "repo.aptrust.org" then ""
      else if cookieDomain == "staging.aptrust.org" then ".staging"
      else ".test"
    }

    predicate IsTestOrDevEnv() {
      envName in TEST_OR_DEV_ENVS
    }

    /** HTTPScheme: plain http only in test and development environments. */
    function HTTPScheme(): (scheme: string)
      ensures scheme == "http" <==> IsTestOrDevEnv()
      ensures scheme == "https" <==> !IsTestOrDevEnv()
    {
      if IsTestOrDevEnv() then "http" else "https"
    }
  }

  /** Every test or development environment is an allowed configuration. */
  lemma TestOrDevEnvsAllowed()
    ensures forall e :: e in TEST_OR_DEV_ENVS ==> e in ALLOWED_CONFIGS
  {
  }

  /** configDirAndFile, file part: APT_ENV must be allowed, and names the
      file ".env.<name>". */
  function ConfigFile(envName: string): (r: Result<string, LoadError>)
    ensures r.Err? <==> envName !in ALLOWED_CONFIGS
    ensures r.Err? ==> r.error == BadEnvName
    ensures r.Ok? ==> r.value == ".env." + envName
  {
    if envName !in ALLOWED_CONFIGS then Err(BadEnvName)
    else if envName == "" then EmptyNameNotAllowed(); assert false; Ok(".env")
    else Ok(".env." + envName)
  }

  /** Every allowed name is non-empty. */
  lemma EmptyNameNotAllowed()
    ensures "" !in ALLOWED_CONFIGS
  {
    assert forall e :: e in ALLOWED_CONFIGS ==> |e| > 0;
  }

  /** The plain ".env" file is never chosen: the empty name is not allowed. */
  lemma PlainEnvFileUnreachable(envName: string)
    ensures ConfigFile(envName) != Ok(".env")
  {
    if envName == "" {
      EmptyNameNotAllowed();
    } else if envName in ALLOWED_CONFIGS {
      assert ConfigFile(envName).value[4] == '.';
    }
  }

  /** The settings loadConfig reads, as viper's GetString returns them (a
      missing setting reads as ""). */
  datatype Settings = Settings(
    cookieHashKey: string,
    cookieBlockKey: string,
    nsqUrl: string,
    cookieDomain: string,
    awsSesUser: string,
    awsSesPwd: string,
    awsAccessKeyID: string,
    awsSecretAccessKey: string)

  /** A cookie key shorter than 32 bytes. */
  predicate ShortKeys(settings: Settings) {
    |settings.cookieHashKey| < MIN_COOKIE_KEY_LENGTH || |settings.cookieBlockKey| < MIN_COOKIE_KEY_LENGTH
  }

  /** loadConfig, after the settings are read: both cookie keys of at least
      32 bytes and a valid NSQ_URL are required (the program exits with the
      message otherwise), and an empty SES user or password falls back to
      the AWS key pair. `isURL` is the URL validator. */
  method LoadConfig(envName: string, settings: Settings, isURL: string -> bool)
    returns (r: Result<Config, LoadError>)
    ensures r.Err? <==>
      envName !in ALLOWED_CONFIGS
      || ShortKeys(settings)
      || !isURL(settings.nsqUrl)
    ensures envName !in ALLOWED_CONFIGS ==> r == Err(BadEnvName)
    ensures envName in ALLOWED_CONFIGS && ShortKeys(settings) ==> r == Err(ShortCookieKey)
    ensures envName in ALLOWED_CONFIGS && !ShortKeys(settings) && !isURL(settings.nsqUrl) ==>
      r == Err(InvalidNsqUrl)
    ensures r.Ok? ==>
      && r.value.envName == envName
      && r.value.cookieDomain == settings.cookieDomain
      && r.value.hashKey == settings.cookieHashKey && r.value.blockKey == settings.cookieBlockKey
      && r.value.nsqUrl == settings.nsqUrl
      && r.value.sesUser == (if settings.awsSesUser != "" then settings.awsSesUser else settings.awsAccessKeyID)
      && r.value.sesPassword == (if settings.awsSesPwd != "" then settings.awsSesPwd else settings.awsSecretAccessKey)
  {
    var file := ConfigFile(envName);
    if file.Err? {
      return Err(file.error);
    }
    var hashKey := settings.cookieHashKey;
    var blockKey := settings.cookieBlockKey;
    if |hashKey| < MIN_COOKIE_KEY_LENGTH || |blockKey| < MIN_COOKIE_KEY_LENGTH {
      return Err(ShortCookieKey);
    }
    var nsqUrl := settings.nsqUrl;
    if !isURL(nsqUrl) {
      return Err(InvalidNsqUrl);
    }
    var sesUser := settings.awsSesUser;
    var sesPassword := settings.awsSesPwd;
    if sesUser == "" {
      sesUser := settings.awsAccessKeyID;
    }
    if sesPassword == "" {
      sesPassword := settings.awsSecretAccessKey;
    }
    r := Ok(Config(envName, settings.cookieDomain, hashKey, blockKey, nsqUrl, sesUser, sesPassword));
  }
}
