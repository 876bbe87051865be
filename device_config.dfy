/** The device table of the configuration: the platform keys, their connection URI and driver options. */
module DeviceConfig {
  import opened Text

  /** One entry of the table: the URI handed to the driver and the attributes set on the connected device. */
  datatype DeviceConf = DeviceConf(uri: String, options: seq<(String, String)>)

  /** `DEVICE_CONFIG`, keyed by upper-case platform name. */
  const DeviceTable: map<String, DeviceConf> := map[
    "IOS" := DeviceConf("iOS:///http://127.0.0.1:8100", []),
    "ANDROID" := DeviceConf("Android:///", [("cap_method", "JAVACAP"), ("touch_method", "ADBTOUCH"),
                                            ("ori_method", "ADBORI"), ("ime_method", "ADBIME")]),
    "WINDOWS" := DeviceConf("Windows:///", [])
  ]
}
