// What a callback, or a plugin's init function, can answer (plugin_handler.h).

module PluginAnswers {
  const BCIRC_PLUGIN_CONTINUE := 3
  const BCIRC_PLUGIN_BREAK := 2
  const BCIRC_PLUGIN_OK := 1
  const BCIRC_PLUGIN_STOP := 0
  const BCIRC_PLUGIN_FAIL := -1
}
