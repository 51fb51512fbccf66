/**
 * The configuration of the e-mail alerter and the metrics updater
 * (AmazonConfig.java): defaults, chaining setters and the validity rule that
 * alerting, when enabled, needs both addresses and both keys.
 */
module Amazon {
  import opened Wrappers

  datatype TimeUnit = Milliseconds | Seconds | Minutes | Hours | Days

  /** A duration as a magnitude and a unit. */
  datatype Duration = Duration(value: real, unit: TimeUnit)

  /** The validity rule on the configuration's values. */
  predicate ValidSettings(alertingEnabled: bool, fromAddress: Option<string>, toAddress: Option<string>,
                          awsAccessKey: Option<string>, awsSecretKey: Option<string>)
  {
    !alertingEnabled || (fromAddress.Some? && toAddress.Some? && awsAccessKey.Some? && awsSecretKey.Some?)
  }

  class AmazonConfig {
    var alertingEnabled: bool
    var cloudWatchUpdateTime: Duration
    var fromAddress: Option<string>
    var toAddress: Option<string>
    var awsAccessKey: Option<string>
    var awsSecretKey: Option<string>

    /** The defaults: alerting enabled, a ten-second update time, no addresses, no keys. */
    constructor ()
      ensures alertingEnabled && cloudWatchUpdateTime == Duration(10.0, Seconds)
      ensures fromAddress.None? && toAddress.None? && awsAccessKey.None? && awsSecretKey.None?
      ensures !IsValid()
    {
      alertingEnabled := true;
      cloudWatchUpdateTime := Duration(10.0, Seconds);
      fromAddress := None;
      toAddress := None;
      awsAccessKey := None;
      awsSecretKey := None;
    }

    /** `isValid()`. */
    predicate IsValid()
      reads this
    {
      ValidSettings(alertingEnabled, fromAddress, toAddress, awsAccessKey, awsSecretKey)
    }

    method SetCloudWatchUpdateTime(d: Duration) returns (r: AmazonConfig)
      modifies this
      ensures r == this && cloudWatchUpdateTime == d
      ensures alertingEnabled == old(alertingEnabled) && fromAddress == old(fromAddress)
      ensures toAddress == old(toAddress) && awsAccessKey == old(awsAccessKey) && awsSecretKey == old(awsSecretKey)
    {
      cloudWatchUpdateTime := d;
      r := this;
    }

    method SetFromAddress(address: Option<string>) returns (r: AmazonConfig)
      modifies this
      ensures r == this && fromAddress == address
      ensures alertingEnabled == old(alertingEnabled) && cloudWatchUpdateTime == old(cloudWatchUpdateTime)
      ensures toAddress == old(toAddress) && awsAccessKey == old(awsAccessKey) && awsSecretKey == old(awsSecretKey)
    {
      fromAddress := address;
      r := this;
    }

    method SetToAddress(address: Option<string>) returns (r: AmazonConfig)
      modifies this
      ensures r == this && toAddress == address
      ensures alertingEnabled == old(alertingEnabled) && cloudWatchUpdateTime == old(cloudWatchUpdateTime)
      ensures fromAddress == old(fromAddress) && awsAccessKey == old(awsAccessKey) && awsSecretKey == old(awsSecretKey)
    {
      toAddress := address;
      r := this;
    }

    method SetAwsAccessKey(key: Option<string>) returns (r: AmazonConfig)
      modifies this
      ensures r == this && awsAccessKey == key
      ensures alertingEnabled == old(alertingEnabled) && cloudWatchUpdateTime == old(cloudWatchUpdateTime)
      ensures fromAddress == old(fromAddress) && toAddress == old(toAddress) && awsSecretKey == old(awsSecretKey)
    {
      awsAccessKey := key;
      r := this;
    }

    method SetAwsSecretKey(key: Option<string>) returns (r: AmazonConfig)
      modifies this
      ensures r == this && awsSecretKey == key
      ensures alertingEnabled == old(alertingEnabled) && cloudWatchUpdateTime == old(cloudWatchUpdateTime)
      ensures fromAddress == old(fromAddress) && toAddress == old(toAddress) && awsAccessKey == old(awsAccessKey)
    {
      awsSecretKey := key;
      r := this;
    }

    method SetAlertingEnabled(enabled: bool) returns (r: AmazonConfig)
      modifies this
      ensures r == this && alertingEnabled == enabled
      ensures cloudWatchUpdateTime == old(cloudWatchUpdateTime) && fromAddress == old(fromAddress)
      ensures toAddress == old(toAddress) && awsAccessKey == old(awsAccessKey) && awsSecretKey == old(awsSecretKey)
      ensures !enabled ==> IsValid()
    {
      alertingEnabled := enabled;
      r := this;
    }
  }

  /** A configuration with alerting disabled is always valid; with alerting enabled
      it is valid exactly when both addresses and both keys are set. */
  lemma ValidSettingsIff(enabled: bool, from: Option<string>, to: Option<string>,
                         access: Option<string>, secret: Option<string>)
    ensures !enabled ==> ValidSettings(enabled, from, to, access, secret)
    ensures enabled ==>
      (ValidSettings(enabled, from, to, access, secret) <==> from != None && to != None && access != None && secret != None)
  {
  }
}
